/** src/range.rs: assembling a scan from tables and memtables. */
module CreateRange {
  import opened Arithmetic
  import opened Core
  import opened EntryStreams
  import opened RangeTombstones
  import opened Mvcc
  import opened TombstoneSkips
  import opened RtFilter
  import opened MergeSpec
  import opened Tables
  import opened Sorting
  import opened Peekable
  import opened Pipeline
  import opened SeekingMergers
  import opened ScanRuns
  import opened ScanSteps
  import opened SeekingRuns
  import opened SeekingSteps
  import opened TreeIters

  // --- bounds ---

  function UserToInternalLower(lo: Bound<Key>): Bound<(Key, SeqNo)> {
    match lo
    case Included(k) => Included((k, U64_MAX))
    case Excluded(k) => Excluded((k, 0))
    case Unbounded => Unbounded
  }

  function UserToInternalUpper(hi: Bound<Key>): Bound<(Key, SeqNo)> {
    match hi
    case Included(k) => Included((k, 0))
    case Excluded(k) => Excluded((k, U64_MAX))
    case Unbounded => Unbounded
  }

  /** Position in the internal-key order, as an entry to compare with. */
  function At(k: (Key, SeqNo)): Entry { Entry(k.0, k.1, Value, []) }

  predicate InInternalRange(e: Entry, lo: Bound<(Key, SeqNo)>, hi: Bound<(Key, SeqNo)>) {
    && (match lo
        case Included(k) => !EntryLess(e, At(k))
        case Excluded(k) => EntryLess(At(k), e)
        case Unbounded => true)
    && (match hi
        case Included(k) => !EntryLess(At(k), e)
        case Excluded(k) => EntryLess(e, At(k))
        case Unbounded => true)
  }

  /** Internal bounds select exactly the versions of the keys the user bounds select. */
  lemma InternalBoundsExact(e: Entry, lo: Bound<Key>, hi: Bound<Key>)
    requires e.seqno <= U64_MAX
    ensures InInternalRange(e, UserToInternalLower(lo), UserToInternalUpper(hi)) <==> InRange(e.key, lo, hi)
  {
  }

  predicate OverlapsBounds(rt: RangeTombstone, lo: Bound<Key>, hi: Bound<Key>) {
    && (match lo
        case Included(k) => rt.end > k
        case Excluded(k) => rt.end > k
        case Unbounded => true)
    && (match hi
        case Included(k) => rt.start <= k
        case Excluded(k) => rt.start < k
        case Unbounded => true)
  }

  function Overlapping(lo: Bound<Key>, hi: Bound<Key>): Sourced -> bool {
    (s: Sourced) => OverlapsBounds(s.rt, lo, hi)
  }

  /** Tombstones that miss the bounds decide nothing inside them. */
  lemma OverlapSuffices(rts: seq<Sourced>, lo: Bound<Key>, hi: Bound<Key>, key: Key, seqno: SeqNo)
    requires InRange(key, lo, hi)
    ensures Suppressed(Filter(rts, Overlapping(lo, hi)), key, seqno) == Suppressed(rts, key, seqno)
  {
    FilterMembers(rts, Overlapping(lo, hi));
    if Suppressed(rts, key, seqno) {
      var s :| s in rts && s.rt.ShouldSuppress(key, seqno, s.cutoff);
      assert s in Filter(rts, Overlapping(lo, hi));
    }
  }

  predicate KeyRangeOverlaps(t: Table, lo: Bound<Key>, hi: Bound<Key>) {
    AboveLower(t.max, lo) && BelowUpper(t.min, hi)
  }

  // --- table skip ---

  predicate StartLe(a: Sourced, b: Sourced) { a.rt.start <= b.rt.start }

  predicate CoversTable(s: Sourced, t: Table) {
    s.rt.VisibleAt(s.cutoff) && s.rt.FullyCovers(t.min, t.max) && s.rt.seqno > t.kvSeqno
  }

  /** Searching the prefix of tombstones that start early enough finds a covering
      one exactly when there is one anywhere. */
  method IsCovered(rts: seq<Sourced>, t: Table) returns (r: bool)
    requires SortedBy(rts, StartLe)
    ensures r <==> exists s :: s in rts && CoversTable(s, t)
  {
    var candidates := PartitionPoint(rts, (s: Sourced) => s.rt.start <= t.min);
    var i := 0;
    while i < candidates
      invariant 0 <= i <= candidates
      invariant forall j :: 0 <= j < i ==> !CoversTable(rts[j], t)
    {
      if CoversTable(rts[i], t) {
        return true;
      }
      i := i + 1;
    }
    r := false;
  }

  /** Every entry of a covered table is suppressed. */
  lemma CoveredIsSuppressed(rts: seq<Sourced>, s: Sourced, t: Table)
    requires s in rts && CoversTable(s, t) && ValidTable(t)
    ensures forall e :: e in t.entries ==> EntrySuppressed(rts, e)
  {
    forall e | e in t.entries
      ensures EntrySuppressed(rts, e)
    {
      assert s.rt.ShouldSuppress(e.key, e.seqno, s.cutoff);
    }
  }

  // --- deduplication ---

  function MaxCutoff(a: Sourced, b: Sourced): Sourced {
    Sourced(a.rt, if a.cutoff < b.cutoff then b.cutoff else a.cutoff)
  }

  /** Merges equal neighbours into one, with the greater cutoff. */
  function Dedup(rts: seq<Sourced>): seq<Sourced> {
    if rts == [] then []
    else
      var kept, s := Dedup(rts[..|rts| - 1]), rts[|rts| - 1];
      if kept != [] && kept[|kept| - 1].rt == s.rt
      then kept[..|kept| - 1] + [MaxCutoff(kept[|kept| - 1], s)]
      else kept + [s]
  }

  ghost predicate KeptIn(kept: seq<Sourced>, s: Sourced) {
    exists k :: k in kept && k.rt == s.rt && s.cutoff <= k.cutoff
  }

  /** Every tombstone survives with the greatest cutoff it came with, and nothing
      is made up. */
  lemma {:induction false} DedupKeeps(rts: seq<Sourced>)
    ensures forall k :: k in Dedup(rts) ==> k in rts
    ensures forall s :: s in rts ==> KeptIn(Dedup(rts), s)
  {
    if rts != [] {
      var front, s := rts[..|rts| - 1], rts[|rts| - 1];
      var before, after := Dedup(front), Dedup(rts);
      DedupKeeps(front);
      assert rts == front + [s];
      forall x | x in rts
        ensures KeptIn(after, x)
      {
        if x in front {
          var k :| k in before && k.rt == x.rt && x.cutoff <= k.cutoff;
          KeepsOne(before, s, k, after);
        } else {
          assert after[|after| - 1] in after;
        }
      }
      assert before != [] ==> before[|before| - 1] in before;
    }
  }

  lemma KeepsOne(before: seq<Sourced>, s: Sourced, k: Sourced, after: seq<Sourced>)
    requires k in before
    requires after == if before[|before| - 1].rt == s.rt
                      then before[..|before| - 1] + [MaxCutoff(before[|before| - 1], s)] else before + [s]
    ensures KeptIn(after, k)
  {
    var i :| 0 <= i < |before| && before[i] == k;
    assert after[i] in after && after[i].rt == k.rt && k.cutoff <= after[i].cutoff;
  }

  /** In sorted order equal tombstones are neighbours, so none is left twice. */
  lemma {:induction false} DedupDistinct(rts: seq<Sourced>)
    requires SortedBy(rts, ForwardLe)
    ensures StrictlyForward(Dedup(rts))
    ensures rts != [] ==> Dedup(rts) != [] && Dedup(rts)[|Dedup(rts)| - 1].rt == rts[|rts| - 1].rt
  {
    hide StrictlyForward;
    if rts == [] {
      assert StrictlyForward([]) by {
        NothingForward();
      }
    } else {
      var front, s := rts[..|rts| - 1], rts[|rts| - 1];
      DedupDistinct(front);
      assert front != [] ==> ForwardLe(front[|front| - 1], s);
      DistinctNext(Dedup(front), s);
    }
  }

  ghost predicate StrictlyForward(rts: seq<Sourced>) {
    forall i, j :: 0 <= i < j < |rts| ==> rts[i].rt != rts[j].rt && ForwardLe(rts[i], rts[j])
  }

  lemma NothingForward()
    ensures StrictlyForward([])
  {
  }

  lemma DistinctNext(kept: seq<Sourced>, s: Sourced)
    requires StrictlyForward(kept) && (kept != [] ==> ForwardLe(kept[|kept| - 1], s))
    ensures
      if kept != [] && kept[|kept| - 1].rt == s.rt
      then StrictlyForward(kept[..|kept| - 1] + [MaxCutoff(kept[|kept| - 1], s)])
      else StrictlyForward(kept + [s])
  {
    if kept != [] {
      var last := kept[|kept| - 1];
      assert last.rt != s.rt ==> !ForwardLe(s, last);
    }
  }

  /** Deduplication decides every entry as before. */
  lemma DedupDecides(rts: seq<Sourced>, key: Key, seqno: SeqNo)
    ensures Suppressed(Dedup(rts), key, seqno) == Suppressed(rts, key, seqno)
  {
    DedupKeeps(rts);
    if Suppressed(rts, key, seqno) {
      var s :| s in rts && s.rt.ShouldSuppress(key, seqno, s.cutoff);
      var k :| k in Dedup(rts) && k.rt == s.rt && s.cutoff <= k.cutoff;
      assert k.rt.ShouldSuppress(key, seqno, k.cutoff);
    }
  }

  /** Without a visible tombstone the filter passes everything. */
  lemma NothingVisible(rts: seq<Sourced>, items: seq<Item>)
    requires forall s :: s in rts ==> !s.rt.VisibleAt(s.cutoff)
    ensures Filter(items, Survives(rts)) == items
  {
    forall item | item in items
      ensures Survives(rts)(item)
    {
    }
    FilterAll(items, Survives(rts));
  }

  // --- agreement of tombstone lists ---

  ghost predicate Agree(a: seq<Sourced>, b: seq<Sourced>, e: Entry) {
    EntrySuppressed(a, e) == EntrySuppressed(b, e)
  }

  lemma {:induction false} ScanAgrees(es: seq<Entry>, a: seq<Sourced>, b: seq<Sourced>)
    requires forall e :: e in es ==> Agree(a, b, e)
    ensures ScanVersions(es, a) == ScanVersions(es, b)
  {
    hide EntrySuppressed;
    if es != [] {
      assert es[0] in es;
      ScanAgrees(es[1..], a, b);
    }
  }

  lemma {:induction false} CollapseAgrees(m: seq<Entry>, op: Option<MergeOp>, a: seq<Sourced>, b: seq<Sourced>)
    requires forall e :: e in m ==> Agree(a, b, e)
    ensures Collapse(m, op, a) == Collapse(m, op, b)
    ensures forall item :: item in Collapse(m, op, a) && item.Row? ==> Agree(a, b, item.entry)
    decreases |m|
  {
    hide ScanVersions, Suppressed;
    if m != [] {
      var n := KeyRun(m, m[0].key);
      var group, rest := m[..n], m[n..];
      assert m == group + rest && group[0] == m[0] && m[0] in m;
      ScanAgrees(group, a, b);
      CollapseAgrees(rest, op, a, b);
    }
  }

  /** A scan only depends on what the tombstones decide about its entries. */
  lemma ScannedAgrees(m: seq<Entry>, op: Option<MergeOp>, a: seq<Sourced>, b: seq<Sourced>, c: seq<Sourced>)
    requires forall e :: e in m ==> Agree(a, c, e)
    requires forall e: Entry :: Agree(a, b, e)
    ensures Filter(Filter(Collapse(m, op, a), NotTombstone), Survives(b)) == Scanned(m, op, c)
  {
    hide Suppressed, Collapse;
    CollapseAgrees(m, op, a, c);
    var items := Filter(Collapse(m, op, a), NotTombstone);
    FilterMembers(Collapse(m, op, a), NotTombstone);
    forall item | item in items
      ensures Survives(b)(item) == Survives(c)(item)
    {
      if item.Row? {
        assert Agree(a, b, item.entry) && Agree(a, c, item.entry);
      }
    }
    FilterAgree(items, Survives(b), Survives(c));
  }

  // --- assembly ---

  /** A memtable with the snapshot cutoff it is read at: the scan's own, or the
      overlay's for an ephemeral memtable. */
  datatype Memtable = Memtable(entries: seq<Entry>, tombstones: seq<RangeTombstone>, cutoff: SeqNo)

  /** What a scan may see of a source. */
  function InScan(lo: Bound<Key>, hi: Bound<Key>, cutoff: SeqNo): Entry -> bool {
    (e: Entry) => InRange(e.key, lo, hi) && e.seqno < cutoff
  }

  function Paired(rts: seq<RangeTombstone>, cutoff: SeqNo): seq<Sourced> {
    seq(|rts|, i requires 0 <= i < |rts| => Sourced(rts[i], cutoff))
  }

  function TableTombstones(tables: seq<Table>, cutoff: SeqNo): seq<Sourced> {
    if tables == [] then []
    else TableTombstones(tables[..|tables| - 1], cutoff) + Paired(tables[|tables| - 1].tombstones, cutoff)
  }

  function RunTombstones(runs: seq<seq<Table>>, cutoff: SeqNo): seq<Sourced> {
    if runs == [] then [] else RunTombstones(runs[..|runs| - 1], cutoff) + TableTombstones(runs[|runs| - 1], cutoff)
  }

  function MemtableTombstones(memtables: seq<Memtable>): seq<Sourced> {
    if memtables == [] then []
    else
      var m := memtables[|memtables| - 1];
      MemtableTombstones(memtables[..|memtables| - 1]) + Paired(m.tombstones, m.cutoff)
  }

  function TableSources(tables: seq<Table>, lo: Bound<Key>, hi: Bound<Key>, seqno: SeqNo): (r: seq<seq<Entry>>)
    ensures |r| == |tables|
  {
    seq(|tables|, i requires 0 <= i < |tables| => Filter(tables[i].entries, InScan(lo, hi, seqno)))
  }

  function RunSources(runs: seq<seq<Table>>, lo: Bound<Key>, hi: Bound<Key>, seqno: SeqNo): (r: seq<seq<Entry>>)
    ensures |r| == |runs|
  {
    seq(|runs|, i requires 0 <= i < |runs| => Filter(RunEntries(runs[i], 0, |runs[i]|), InScan(lo, hi, seqno)))
  }

  function MemtableSources(memtables: seq<Memtable>, lo: Bound<Key>, hi: Bound<Key>): (r: seq<seq<Entry>>)
    ensures |r| == |memtables|
  {
    seq(|memtables|, i requires 0 <= i < |memtables| => Filter(memtables[i].entries, InScan(lo, hi, memtables[i].cutoff)))
  }

  /** Everything a scan sees, with nothing skipped, newest source first. `tables`
      are the runs of one table, `runs` those of several, `memtables` oldest first. */
  function ScanSources(tables: seq<Table>, runs: seq<seq<Table>>, memtables: seq<Memtable>,
                       lo: Bound<Key>, hi: Bound<Key>, seqno: SeqNo): seq<seq<Entry>> {
    Reversed(MemtableSources(memtables, lo, hi)) + (TableSources(tables, lo, hi, seqno) + RunSources(runs, lo, hi, seqno))
  }

  /** Every tombstone of every source, whether or not it meets the bounds. */
  function ScanTombstones(tables: seq<Table>, runs: seq<seq<Table>>, memtables: seq<Memtable>, seqno: SeqNo): seq<Sourced> {
    TableTombstones(tables, seqno) + RunTombstones(runs, seqno) + MemtableTombstones(memtables)
  }

  lemma OutOfRangeTable(t: Table, lo: Bound<Key>, hi: Bound<Key>, seqno: SeqNo)
    requires ValidTable(t) && !KeyRangeOverlaps(t, lo, hi)
    ensures Filter(t.entries, InScan(lo, hi, seqno)) == []
  {
    FilterNone(t.entries, InScan(lo, hi, seqno));
  }

  lemma CoveredTable(rts: seq<Sourced>, t: Table, lo: Bound<Key>, hi: Bound<Key>, seqno: SeqNo)
    requires ValidTable(t) && exists s :: s in rts && CoversTable(s, t)
    ensures Filter(Filter(t.entries, InScan(lo, hi, seqno)), Alive(rts)) == []
  {
    var s :| s in rts && CoversTable(s, t);
    CoveredIsSuppressed(rts, s, t);
    FilterMembers(t.entries, InScan(lo, hi, seqno));
    FilterNone(Filter(t.entries, InScan(lo, hi, seqno)), Alive(rts));
  }

  /** Opens the single tables that neither miss the range nor are covered by a
      tombstone; the skipped ones hold nothing alive. */
  method OpenTables(tables: seq<Table>, sstRts: seq<Sourced>, ghost all: seq<Sourced>,
                    lo: Bound<Key>, hi: Bound<Key>, seqno: SeqNo) returns (iters: seq<seq<Entry>>)
    requires forall i :: 0 <= i < |tables| ==> ValidTable(tables[i])
    requires SortedBy(sstRts, StartLe) && forall s :: s in sstRts ==> s in all
    ensures SourcesSorted(iters)
    ensures KeptSources(iters, Alive(all)) == KeptSources(TableSources(tables, lo, hi, seqno), Alive(all))
    ensures forall i, e :: 0 <= i < |iters| && e in iters[i] ==> InRange(e.key, lo, hi)
  {
    hide ValidTable, Alive, Filter, KeptSources;
    ghost var spec := TableSources(tables, lo, hi, seqno);
    iters := [];
    var i := 0;
    assert spec[..0] == [];
    while i < |tables|
      invariant 0 <= i <= |tables|
      invariant SourcesSorted(iters)
      invariant KeptSources(iters, Alive(all)) == KeptSources(spec[..i], Alive(all))
      invariant forall k, e :: 0 <= k < |iters| && e in iters[k] ==> InRange(e.key, lo, hi)
    {
      var t := tables[i];
      ghost var visible := spec[i];
      assert spec[..i + 1] == spec[..i] + [visible];
      KeptSourcesAppend(spec[..i], visible, Alive(all));
      if KeyRangeOverlaps(t, lo, hi) {
        var covered := IsCovered(sstRts, t);
        if !covered {
          KeptSourcesAppend(iters, visible, Alive(all));
          VisibleSource(t, lo, hi, seqno);
          iters := iters + [Filter(t.entries, InScan(lo, hi, seqno))];
        } else {
          CoveredTable(all, t, lo, hi, seqno);
        }
      } else {
        OutOfRangeTable(t, lo, hi, seqno);
        FilterNone(visible, Alive(all));
      }
      i := i + 1;
    }
    assert spec[..|tables|] == spec;
  }

  lemma VisibleSource(t: Table, lo: Bound<Key>, hi: Bound<Key>, seqno: SeqNo)
    requires ValidTable(t)
    ensures SourceSorted(Filter(t.entries, InScan(lo, hi, seqno)))
    ensures forall e :: e in Filter(t.entries, InScan(lo, hi, seqno)) ==> InRange(e.key, lo, hi)
  {
    FilterSorted(t.entries, InScan(lo, hi, seqno));
    FilterMembers(t.entries, InScan(lo, hi, seqno));
  }

  lemma StartSorted(rts: seq<Sourced>)
    ensures SortedBy(Sort(rts, StartLe), StartLe) && SameMembers(Sort(rts, StartLe), rts)
  {
    SortSorts(rts, StartLe);
  }

  /** What the sources of a scan have in common: order, and keys within bounds. */
  ghost predicate ScanReady(sources: seq<seq<Entry>>, lo: Bound<Key>, hi: Bound<Key>) {
    && SourcesSorted(sources)
    && (forall i, e :: 0 <= i < |sources| && e in sources[i] ==> InRange(e.key, lo, hi))
  }

  lemma SpecSourcesReady(runs: seq<seq<Table>>, memtables: seq<Memtable>, lo: Bound<Key>, hi: Bound<Key>, seqno: SeqNo)
    requires forall i :: 0 <= i < |runs| ==> ValidRun(runs[i])
    requires forall i :: 0 <= i < |memtables| ==> SourceSorted(memtables[i].entries)
    ensures ScanReady(RunSources(runs, lo, hi, seqno), lo, hi)
    ensures ScanReady(MemtableSources(memtables, lo, hi), lo, hi)
  {
    hide SourceSorted, ValidRun;
    forall i | 0 <= i < |runs|
      ensures SourceSorted(RunSources(runs, lo, hi, seqno)[i])
      ensures forall e :: e in RunSources(runs, lo, hi, seqno)[i] ==> InRange(e.key, lo, hi)
    {
      RunSorted(runs[i], 0, |runs[i]|);
      FilterSorted(RunEntries(runs[i], 0, |runs[i]|), InScan(lo, hi, seqno));
      FilterMembers(RunEntries(runs[i], 0, |runs[i]|), InScan(lo, hi, seqno));
    }
    forall i | 0 <= i < |memtables|
      ensures SourceSorted(MemtableSources(memtables, lo, hi)[i])
      ensures forall e :: e in MemtableSources(memtables, lo, hi)[i] ==> InRange(e.key, lo, hi)
    {
      FilterSorted(memtables[i].entries, InScan(lo, hi, memtables[i].cutoff));
      FilterMembers(memtables[i].entries, InScan(lo, hi, memtables[i].cutoff));
    }
  }

  /** Scanning what was opened gives the meaning of everything there is. */
  lemma OpenedMeaning(live: seq<seq<Entry>>, all: seq<seq<Entry>>, op: Option<MergeOp>, rts: seq<Sourced>)
    requires SourcesSorted(live) && SourcesSorted(all)
    requires KeptSources(live, Alive(rts)) == KeptSources(all, Alive(rts))
    ensures Scanned(Entries(Merged(live)), op, rts) == ScanMeaning(Entries(Merged(all)), op, rts)
  {
    hide Alive, Scanned, ScanMeaning;
    EntriesMerge(live, |live|);
    EntriesMerge(all, |all|);
    assert live[..|live|] == live && all[..|all|] == all;
    MergeEntriesOrdered(live);
    MergeEntriesOrdered(all);
    FilterMerge(live, Alive(rts));
    FilterMerge(all, Alive(rts));
    SkippingSuppressed(MergeEntries(all), MergeEntries(live), op, rts);
    ScanIsMeaning(MergeEntries(all), op, rts);
  }

  /** The collected, narrowed and reordered tombstones decide every entry of the
      scan as all tombstones together would. */
  lemma CollectedDecides(rts: seq<Sourced>, all: seq<Sourced>, lo: Bound<Key>, hi: Bound<Key>, m: seq<Entry>)
    requires SameMembers(rts, Filter(all, Overlapping(lo, hi)))
    requires forall e :: e in m ==> InRange(e.key, lo, hi)
    ensures forall e :: e in m ==> Agree(rts, all, e)
  {
    hide Suppressed, SameMembers;
    forall e | e in m
      ensures Agree(rts, all, e)
    {
      MembersDecide(rts, Filter(all, Overlapping(lo, hi)), e.key, e.seqno);
      OverlapSuffices(all, lo, hi, e.key, e.seqno);
    }
  }

  lemma MergedInRange(sources: seq<seq<Entry>>, lo: Bound<Key>, hi: Bound<Key>)
    requires ScanReady(sources, lo, hi)
    ensures forall e :: e in Entries(Merged(sources)) ==> InRange(e.key, lo, hi)
  {
    hide Merged;
    MergedOrdered(sources);
  }

  /** The tombstones met by the bounds, collected and sorted in two batches. */
  method CollectTombstones(tables: seq<Table>, runs: seq<seq<Table>>, memtables: seq<Memtable>,
                           lo: Bound<Key>, hi: Bound<Key>, seqno: SeqNo)
    returns (sst: seq<Sourced>, rts: seq<Sourced>)
    ensures SortedBy(sst, StartLe)
    ensures forall s :: s in sst ==> s in ScanTombstones(tables, runs, memtables, seqno)
    ensures SameMembers(rts, Filter(ScanTombstones(tables, runs, memtables, seqno), Overlapping(lo, hi)))
  {
    hide Filter, OverlapsBounds;
    var disk, mem := TableTombstones(tables, seqno) + RunTombstones(runs, seqno), MemtableTombstones(memtables);
    sst := Sort(Filter(disk, Overlapping(lo, hi)), StartLe);
    StartSorted(Filter(disk, Overlapping(lo, hi)));
    FilterMembers(disk, Overlapping(lo, hi));
    FilterMembers(mem, Overlapping(lo, hi));
    FilterMembers(disk + mem, Overlapping(lo, hi));
    rts := sst + Filter(mem, Overlapping(lo, hi));
  }

  /** Opens every source, newest first. What is skipped holds nothing alive. */
  method OpenSources(tables: seq<Table>, runs: seq<seq<Table>>, memtables: seq<Memtable>, sst: seq<Sourced>,
                     ghost all: seq<Sourced>, lo: Bound<Key>, hi: Bound<Key>, seqno: SeqNo)
    returns (iters: seq<seq<Entry>>)
    requires forall i :: 0 <= i < |tables| ==> ValidTable(tables[i])
    requires forall i :: 0 <= i < |runs| ==> ValidRun(runs[i])
    requires forall i :: 0 <= i < |memtables| ==> SourceSorted(memtables[i].entries)
    requires SortedBy(sst, StartLe) && forall s :: s in sst ==> s in all
    ensures ScanReady(iters, lo, hi)
    ensures KeptSources(iters, Alive(all)) == KeptSources(ScanSources(tables, runs, memtables, lo, hi, seqno), Alive(all))
  {
    hide ValidTable, ValidRun, SourceSorted, Alive, KeptSources, TableSources, RunSources, MemtableSources;
    iters := OpenTables(tables, sst, all, lo, hi, seqno);
    SpecSourcesReady(runs, memtables, lo, hi, seqno);
    ghost var kept, runParts := iters, RunSources(runs, lo, hi, seqno);
    iters := iters + RunSources(runs, lo, hi, seqno);
    var tableCount := |iters|;
    iters := iters + MemtableSources(memtables, lo, hi);
    // Newest first: reverse the memtable segment, then rotate it to the front.
    iters := iters[..tableCount] + Reversed(iters[tableCount..]);
    iters := iters[tableCount..] + iters[..tableCount];
    ghost var mem := MemtableSources(memtables, lo, hi);
    assert iters == Reversed(mem) + (kept + runParts);
    KeptSourcesConcat(kept, runParts, Alive(all));
    KeptSourcesConcat(TableSources(tables, lo, hi, seqno), runParts, Alive(all));
    KeptSourcesConcat(Reversed(mem), kept + runParts, Alive(all));
    KeptSourcesConcat(Reversed(mem), TableSources(tables, lo, hi, seqno) + runParts, Alive(all));
  }

  lemma AllSourcesSorted(tables: seq<Table>, runs: seq<seq<Table>>, memtables: seq<Memtable>,
                         lo: Bound<Key>, hi: Bound<Key>, seqno: SeqNo)
    requires forall i :: 0 <= i < |tables| ==> ValidTable(tables[i])
    requires forall i :: 0 <= i < |runs| ==> ValidRun(runs[i])
    requires forall i :: 0 <= i < |memtables| ==> SourceSorted(memtables[i].entries)
    ensures SourcesSorted(ScanSources(tables, runs, memtables, lo, hi, seqno))
  {
    hide ValidTable, ValidRun, SourceSorted;
    SpecSourcesReady(runs, memtables, lo, hi, seqno);
    forall i | 0 <= i < |tables|
      ensures SourceSorted(TableSources(tables, lo, hi, seqno)[i])
    {
      VisibleSource(tables[i], lo, hi, seqno);
    }
  }

  /** A scan holds, in key order, the meaning of each key in its range over every
      source and every tombstone: skipping tables, narrowing and deduplicating
      tombstones, and the two sweeps change nothing. Neither end has been pulled, so
      any run that changes direction at most once hands these items out. */
  method Open(tables: seq<Table>, runs: seq<seq<Table>>, memtables: seq<Memtable>,
              lo: Bound<Key>, hi: Bound<Key>, seqno: SeqNo, op: Option<MergeOp>)
    returns (scan: TreeIter)
    requires forall i :: 0 <= i < |tables| ==> ValidTable(tables[i])
    requires forall i :: 0 <= i < |runs| ==> ValidRun(runs[i])
    requires forall i :: 0 <= i < |memtables| ==> SourceSorted(memtables[i].entries)
    ensures scan.Valid() && fresh(scan.Repr()) && scan.Untouched(true) && scan.Untouched(false)
    ensures scan.Contents() ==
      ScanMeaning(Entries(Merged(ScanSources(tables, runs, memtables, lo, hi, seqno))), op,
                  ScanTombstones(tables, runs, memtables, seqno))
  {
    hide ValidTable, ValidRun, SourceSorted, ScanMeaning, Scanned, Alive, Filter, Suppressed, SameMembers;
    hide ScanSources, ScanTombstones, TreeIter.Valid, TreeIter.Contents, TreeIter.Untouched, Merged;
    ghost var all := ScanTombstones(tables, runs, memtables, seqno);
    var sst, rts := CollectTombstones(tables, runs, memtables, lo, hi, seqno);
    var iters := OpenSources(tables, runs, memtables, sst, all, lo, hi, seqno);
    ghost var merged := Entries(Merged(iters));
    MergedInRange(iters, lo, hi);
    CollectedDecides(rts, all, lo, hi, merged);
    var sorted := Sort(rts, ForwardLe);
    var deduped := Dedup(sorted);
    SortedDedupDecides(rts);
    ScannedAgrees(merged, op, rts, deduped, all);
    AllSourcesSorted(tables, runs, memtables, lo, hi, seqno);
    OpenedMeaning(iters, ScanSources(tables, runs, memtables, lo, hi, seqno), op, all);
    scan := Assemble(iters, op, rts, deduped);
  }

  /** Reading a scan from both ends, with at most one change of direction, is reading
      a deque of the meaning of its keys. By `ScanRuns.ScanUpToOneTurn` that is as far as
      it goes: the value-level scan, which answers the same, breaks on every other
      pattern of calls. */
  method ReadBothEnds(tables: seq<Table>, runs: seq<seq<Table>>, memtables: seq<Memtable>,
                      lo: Bound<Key>, hi: Bound<Key>, seqno: SeqNo, op: Option<MergeOp>, calls: seq<bool>)
    returns (out: seq<Option<Item>>)
    requires forall i :: 0 <= i < |tables| ==> ValidTable(tables[i])
    requires forall i :: 0 <= i < |runs| ==> ValidRun(runs[i])
    requires forall i :: 0 <= i < |memtables| ==> SourceSorted(memtables[i].entries)
    requires Turns(calls) <= 1
    ensures out ==
      Served(ScanMeaning(Entries(Merged(ScanSources(tables, runs, memtables, lo, hi, seqno))), op,
                         ScanTombstones(tables, runs, memtables, seqno)), calls)
    ensures
      var sources := ScanSources(tables, runs, memtables, lo, hi, seqno);
      Ok(Start(sources)) &&
      Answers(out) == ScanRun(ScanStart(sources), op, ScanTombstones(tables, runs, memtables, seqno), calls)
  {
    hide ValidTable, ValidRun, SourceSorted, ScanMeaning, ScanSources, ScanTombstones, Merged, Turns, ScanRun, Start;
    AllSourcesSorted(tables, runs, memtables, lo, hi, seqno);
    OneTurnScan(ScanSources(tables, runs, memtables, lo, hi, seqno), op, ScanTombstones(tables, runs, memtables, seqno), calls);
    hide TreeIter.Valid, TreeIter.Contents, TreeIter.Untouched, TreeIter.Fit;
    var scan := Open(tables, runs, memtables, lo, hi, seqno, op);
    if calls != [] {
      scan.UntouchedIsFit(calls[0]);
    }
    out := scan.Interleave(calls);
  }

  lemma SortedDedupDecides(rts: seq<Sourced>)
    ensures forall e: Entry :: Agree(rts, Dedup(Sort(rts, ForwardLe)), e)
  {
    hide Suppressed;
    ForwardSorted(rts);
    var sorted := Sort(rts, ForwardLe);
    forall e: Entry
      ensures Agree(rts, Dedup(sorted), e)
    {
      DedupDecides(sorted, e.key, e.seqno);
      MembersDecide(sorted, rts, e.key, e.seqno);
    }
  }

  /** Stacks the stages over the merger; the filter only if some tombstone is visible. */
  method Assemble(iters: seq<seq<Entry>>, op: Option<MergeOp>, rts: seq<Sourced>, deduped: seq<Sourced>)
    returns (scan: TreeIter)
    requires SourcesSorted(iters)
    ensures scan.Valid() && fresh(scan.Repr()) && scan.Untouched(true) && scan.Untouched(false)
    ensures scan.Contents() ==
      Filter(Filter(Collapse(Entries(Merged(iters)), op, rts), NotTombstone), Survives(deduped))
  {
    hide Filter, Collapse, RowsAscend, Merged, SourcesSorted, Ordered, Survives;
    hide RangeTombstoneFilter.Valid, RangeTombstoneFilter.Contents, RangeTombstoneFilter.Untouched;
    hide TombstoneSkip.Valid, TombstoneSkip.Contents, TombstoneSkip.Untouched;
    ghost var merged := Entries(Merged(iters));
    MergedAscends(iters, op, rts);
    var skip := Stack(iters, op, rts);
    var anyVisible := AnyVisible(deduped);
    if anyVisible {
      var filter := new RangeTombstoneFilter(skip, deduped);
      FilterOver(filter);
      scan := Filtered(filter);
    } else {
      NothingVisible(deduped, Filter(Collapse(merged, op, rts), NotTombstone));
      scan := Unfiltered(skip);
    }
  }

  lemma FilterOver(filter: RangeTombstoneFilter)
    requires filter.Valid()
    ensures filter.inner.Valid()
    ensures filter.Contents() == Filter(filter.inner.Contents(), Survives(filter.fwd.All))
    ensures filter.inner.Untouched(true) ==> filter.Untouched(true)
    ensures filter.inner.Untouched(false) ==> filter.Untouched(false)
  {
  }

  method AnyVisible(rts: seq<Sourced>) returns (r: bool)
    ensures r <==> exists s :: s in rts && s.rt.VisibleAt(s.cutoff)
  {
    r := false;
    for i := 0 to |rts|
      invariant r <==> exists k :: 0 <= k < i && rts[k].rt.VisibleAt(rts[k].cutoff)
    {
      if rts[i].rt.VisibleAt(rts[i].cutoff) {
        r := true;
      }
    }
  }

  method Stack(iters: seq<seq<Entry>>, op: Option<MergeOp>, rts: seq<Sourced>) returns (skip: TombstoneSkip)
    requires SourcesSorted(iters)
    ensures skip.Valid() && fresh(skip.Repr) && skip in skip.Repr && skip.Untouched(true) && skip.Untouched(false)
    ensures skip.Contents() == Filter(Collapse(Entries(Merged(iters)), op, rts), NotTombstone)
  {
    hide Filter, Collapse, Merged, SourcesSorted, SeekingMerger.Valid, SeekingMerger.Contents, SeekingMerger.Untouched;
    hide MvccStream.Contents, MvccStream.Untouched, TombstoneSkip.Contents, TombstoneSkip.Untouched;
    hide DoubleEndedPeekable.Contents, DoubleEndedPeekable.Untouched;
    var merger := new SeekingMerger(iters);
    var mvcc := new MvccStream(Merging(merger), op, rts);
    skip := new TombstoneSkip(mvcc);
    SkipOver(skip, merger);
  }

  lemma SkipOver(skip: TombstoneSkip, merger: SeekingMerger)
    requires skip.Valid() && skip.inner.inner.iter == Merging(merger)
    ensures merger.Valid()
    ensures merger.Untouched(true) ==> skip.Untouched(true)
    ensures merger.Untouched(false) ==> skip.Untouched(false)
    ensures
      var mvcc := skip.inner;
      skip.Contents() == Filter(Collapse(mvcc.inner.Contents(), mvcc.mergeOperator, mvcc.rangeTombstones), NotTombstone)
  {
    hide Filter, Collapse, SeekingMerger.Valid, SeekingMerger.Contents, SeekingMerger.Untouched;
  }
}
