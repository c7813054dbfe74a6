/**
 What a scan shows, said of the tables, runs and memtables themselves: the newest
 version of each key that the snapshot may see, unless it is deleted.
 */
module Snapshots {
  import opened Core
  import opened CreateRange
  import opened MergeSpec
  import opened Mvcc
  import opened Pipeline
  import opened RangeTombstones
  import opened RtFilter
  import opened Tables
  import opened TombstoneSkips

  /** A scan: its sources, its bounds and its snapshot. */
  datatype Snapshot = Snapshot(tables: seq<Table>, runs: seq<seq<Table>>, memtables: seq<Memtable>,
                               lo: Bound<Key>, hi: Bound<Key>, seqno: SeqNo)
  {
    ghost predicate Valid() {
      && (forall i :: 0 <= i < |tables| ==> ValidTable(tables[i]))
      && (forall i :: 0 <= i < |runs| ==> ValidRun(runs[i]))
      && (forall i :: 0 <= i < |memtables| ==> SourceSorted(memtables[i].entries))
    }

    function Sources(): seq<seq<Entry>> {
      ScanSources(tables, runs, memtables, lo, hi, seqno)
    }

    function Tombstones(): seq<Sourced> {
      ScanTombstones(tables, runs, memtables, seqno)
    }

    /** The scan may see an entry: its key is within bounds, and it is in a table or a
        run and older than the snapshot, or in a memtable and older than its cutoff. */
    ghost predicate Sees(e: Entry) {
      && (match lo case Included(k) => k <= e.key case Excluded(k) => k < e.key case Unbounded => true)
      && (match hi case Included(k) => e.key <= k case Excluded(k) => e.key < k case Unbounded => true)
      && (|| (exists i :: 0 <= i < |tables| && e in tables[i].entries && e.seqno < seqno)
          || (exists i, j :: 0 <= i < |runs| && 0 <= j < |runs[i]| && e in runs[i][j].entries && e.seqno < seqno)
          || (exists i :: 0 <= i < |memtables| && e in memtables[i].entries && e.seqno < memtables[i].cutoff))
    }

    /** A range tombstone of the scan, with the snapshot its source is read at. */
    ghost predicate Carries(rt: RangeTombstone, cutoff: SeqNo) {
      || (exists i :: 0 <= i < |tables| && rt in tables[i].tombstones && cutoff == seqno)
      || (exists i, j :: 0 <= i < |runs| && 0 <= j < |runs[i]| && rt in runs[i][j].tombstones && cutoff == seqno)
      || (exists i :: 0 <= i < |memtables| && rt in memtables[i].tombstones && cutoff == memtables[i].cutoff)
    }

    /** A range tombstone that the snapshot sees covers the entry and is newer. */
    ghost predicate Deletes(e: Entry) {
      exists rt, cutoff :: Carries(rt, cutoff) && rt.start <= e.key < rt.end && e.seqno < rt.seqno < cutoff
    }
  }

  // --- entries ---

  lemma FromTables(s: Snapshot, e: Entry)
    ensures (exists i :: 0 <= i < |s.tables| && e in TableSources(s.tables, s.lo, s.hi, s.seqno)[i]) <==>
            InRange(e.key, s.lo, s.hi) && exists i :: 0 <= i < |s.tables| && e in s.tables[i].entries && e.seqno < s.seqno
  {
    forall i | 0 <= i < |s.tables|
      ensures e in TableSources(s.tables, s.lo, s.hi, s.seqno)[i] <==>
              e in s.tables[i].entries && InRange(e.key, s.lo, s.hi) && e.seqno < s.seqno
    {
      FilterMembers(s.tables[i].entries, InScan(s.lo, s.hi, s.seqno));
    }
  }

  lemma FromRuns(s: Snapshot, e: Entry)
    ensures (exists i :: 0 <= i < |s.runs| && e in RunSources(s.runs, s.lo, s.hi, s.seqno)[i]) <==>
            InRange(e.key, s.lo, s.hi) &&
            exists i, j :: 0 <= i < |s.runs| && 0 <= j < |s.runs[i]| && e in s.runs[i][j].entries && e.seqno < s.seqno
  {
    forall i | 0 <= i < |s.runs|
      ensures e in RunSources(s.runs, s.lo, s.hi, s.seqno)[i] <==>
              && InRange(e.key, s.lo, s.hi) && e.seqno < s.seqno
              && exists j :: 0 <= j < |s.runs[i]| && e in s.runs[i][j].entries
    {
      FilterMembers(RunEntries(s.runs[i], 0, |s.runs[i]|), InScan(s.lo, s.hi, s.seqno));
      RunEntriesMembers(s.runs[i], 0, |s.runs[i]|);
    }
  }

  lemma FromMemtables(s: Snapshot, e: Entry)
    ensures (exists i :: 0 <= i < |s.memtables| && e in MemtableSources(s.memtables, s.lo, s.hi)[i]) <==>
            InRange(e.key, s.lo, s.hi) &&
            exists i :: 0 <= i < |s.memtables| && e in s.memtables[i].entries && e.seqno < s.memtables[i].cutoff
  {
    forall i | 0 <= i < |s.memtables|
      ensures e in MemtableSources(s.memtables, s.lo, s.hi)[i] <==>
              e in s.memtables[i].entries && InRange(e.key, s.lo, s.hi) && e.seqno < s.memtables[i].cutoff
    {
      FilterMembers(s.memtables[i].entries, InScan(s.lo, s.hi, s.memtables[i].cutoff));
    }
  }

  predicate InSome(e: Entry, sources: seq<seq<Entry>>) {
    exists i :: 0 <= i < |sources| && e in sources[i]
  }

  lemma InSomeConcat(e: Entry, a: seq<seq<Entry>>, b: seq<seq<Entry>>)
    ensures InSome(e, a + b) <==> InSome(e, a) || InSome(e, b)
  {
    if i :| 0 <= i < |a| && e in a[i] {
      assert (a + b)[i] == a[i];
    }
    if i :| 0 <= i < |b| && e in b[i] {
      assert (a + b)[|a| + i] == b[i];
    }
  }

  lemma InSomeReversed(e: Entry, a: seq<seq<Entry>>)
    ensures InSome(e, Reversed(a)) <==> InSome(e, a)
  {
    if i :| 0 <= i < |a| && e in a[i] {
      assert Reversed(a)[|a| - 1 - i] == a[i];
    }
  }

  lemma MergedHolds(e: Entry, sources: seq<seq<Entry>>)
    requires SourcesSorted(sources)
    ensures e in Entries(Merged(sources)) <==> InSome(e, sources)
  {
    hide Merged;
    var m := Merged(sources);
    MergeExists(sources);
    if i :| 0 <= i < |sources| && e in sources[i] {
      assert FromSources(Tagged(i, e), sources) && Tagged(i, e) in m;
      var k :| 0 <= k < |m| && m[k] == Tagged(i, e);
      assert Entries(m)[k] == e;
    }
    if e in Entries(m) {
      var k :| 0 <= k < |m| && Entries(m)[k] == e;
      assert m[k] in m && FromSources(m[k], sources);
    }
  }

  /** The merged sources of a scan hold exactly what it may see. */
  lemma SourcesHold(s: Snapshot, e: Entry)
    requires s.Valid()
    ensures e in Entries(Merged(s.Sources())) <==> s.Sees(e)
  {
    hide Merged, ValidTable, ValidRun, SourceSorted, TableSources, RunSources, MemtableSources, InSome;
    AllSourcesSorted(s.tables, s.runs, s.memtables, s.lo, s.hi, s.seqno);
    MergedHolds(e, s.Sources());
    var mem := MemtableSources(s.memtables, s.lo, s.hi);
    var tables, runs := TableSources(s.tables, s.lo, s.hi, s.seqno), RunSources(s.runs, s.lo, s.hi, s.seqno);
    InSomeConcat(e, Reversed(mem), tables + runs);
    InSomeConcat(e, tables, runs);
    InSomeReversed(e, mem);
    SeesBySource(s, e);
  }

  lemma SeesBySource(s: Snapshot, e: Entry)
    ensures s.Sees(e) <==>
      || InSome(e, MemtableSources(s.memtables, s.lo, s.hi)) || InSome(e, TableSources(s.tables, s.lo, s.hi, s.seqno))
      || InSome(e, RunSources(s.runs, s.lo, s.hi, s.seqno))
  {
    FromTables(s, e);
    FromRuns(s, e);
    FromMemtables(s, e);
  }

  /** Newer memtables come before older ones, and all of them before tables and runs. */
  lemma SourceOrder(s: Snapshot, i: nat, e: Entry)
    requires i < |s.memtables| + |s.tables| + |s.runs|
    ensures |s.Sources()| == |s.memtables| + |s.tables| + |s.runs|
    ensures
      var n := |s.memtables|;
      e in s.Sources()[i] <==>
        && InRange(e.key, s.lo, s.hi)
        && if i < n then e in s.memtables[n - 1 - i].entries && e.seqno < s.memtables[n - 1 - i].cutoff
           else if i < n + |s.tables| then e in s.tables[i - n].entries && e.seqno < s.seqno
           else e.seqno < s.seqno && exists t :: t in s.runs[i - n - |s.tables|] && e in t.entries
  {
    var n := |s.memtables|;
    if i < n {
      FilterMembers(s.memtables[n - 1 - i].entries, InScan(s.lo, s.hi, s.memtables[n - 1 - i].cutoff));
    } else if i < n + |s.tables| {
      FilterMembers(s.tables[i - n].entries, InScan(s.lo, s.hi, s.seqno));
    } else {
      var run := s.runs[i - n - |s.tables|];
      FilterMembers(RunEntries(run, 0, |run|), InScan(s.lo, s.hi, s.seqno));
      RunEntriesMembers(run, 0, |run|);
    }
  }

  // --- range tombstones ---

  lemma PairedHolds(rts: seq<RangeTombstone>, cutoff: SeqNo, x: Sourced)
    ensures x in Paired(rts, cutoff) <==> x.rt in rts && x.cutoff == cutoff
  {
    if i :| 0 <= i < |rts| && rts[i] == x.rt {
      assert Paired(rts, cutoff)[i] == Sourced(rts[i], cutoff);
    }
  }

  lemma {:induction false} TableTombstonesHold(tables: seq<Table>, cutoff: SeqNo, x: Sourced)
    ensures x in TableTombstones(tables, cutoff) <==>
            x.cutoff == cutoff && exists i :: 0 <= i < |tables| && x.rt in tables[i].tombstones
  {
    if tables != [] {
      var front, last := tables[..|tables| - 1], tables[|tables| - 1];
      TableTombstonesHold(front, cutoff, x);
      PairedHolds(last.tombstones, cutoff, x);
      assert tables == front + [last];
    }
  }

  lemma {:induction false} RunTombstonesHold(runs: seq<seq<Table>>, cutoff: SeqNo, x: Sourced)
    ensures x in RunTombstones(runs, cutoff) <==>
            x.cutoff == cutoff && exists i, j :: 0 <= i < |runs| && 0 <= j < |runs[i]| && x.rt in runs[i][j].tombstones
  {
    if runs != [] {
      var front, last := runs[..|runs| - 1], runs[|runs| - 1];
      RunTombstonesHold(front, cutoff, x);
      TableTombstonesHold(last, cutoff, x);
      assert runs == front + [last];
    }
  }

  lemma {:induction false} MemtableTombstonesHold(memtables: seq<Memtable>, x: Sourced)
    ensures x in MemtableTombstones(memtables) <==>
            exists i :: 0 <= i < |memtables| && x.rt in memtables[i].tombstones && x.cutoff == memtables[i].cutoff
  {
    if memtables != [] {
      var front, last := memtables[..|memtables| - 1], memtables[|memtables| - 1];
      MemtableTombstonesHold(front, x);
      PairedHolds(last.tombstones, last.cutoff, x);
      assert memtables == front + [last];
    }
  }

  /** The tombstones of a scan are exactly those its sources carry, each read at the
      snapshot of its source. */
  lemma TombstonesHold(s: Snapshot, x: Sourced)
    ensures x in s.Tombstones() <==> s.Carries(x.rt, x.cutoff)
  {
    hide TableTombstones, RunTombstones, MemtableTombstones;
    TableTombstonesHold(s.tables, s.seqno, x);
    RunTombstonesHold(s.runs, s.seqno, x);
    MemtableTombstonesHold(s.memtables, x);
  }

  lemma SuppressedIsDeleted(s: Snapshot, e: Entry)
    ensures EntrySuppressed(s.Tombstones(), e) <==> s.Deletes(e)
  {
    hide Snapshot.Carries, Snapshot.Tombstones;
    if x :| x in s.Tombstones() && x.rt.ShouldSuppress(e.key, e.seqno, x.cutoff) {
      TombstonesHold(s, x);
    }
    if rt, cutoff :| s.Carries(rt, cutoff) && rt.start <= e.key < rt.end && e.seqno < rt.seqno < cutoff {
      TombstonesHold(s, Sourced(rt, cutoff));
      assert Sourced(rt, cutoff).rt.ShouldSuppress(e.key, e.seqno, cutoff);
    }
  }

  // --- rows ---

  /** No two sources disagree on a version. */
  ghost predicate VersionsUnique(s: Snapshot) {
    forall a, b :: s.Sees(a) && s.Sees(b) && a.key == b.key && a.seqno == b.seqno ==> a == b
  }

  /** Without a merge operator a scan shows an entry if and only if it may see it, sees
      no newer version of its key, and it is neither a tombstone nor deleted by a range
      tombstone. */
  lemma ShowsTheNewest(s: Snapshot, e: Entry)
    requires s.Valid() && VersionsUnique(s)
    ensures Row(e) in ScanMeaning(Entries(Merged(s.Sources())), None, s.Tombstones()) <==>
      && s.Sees(e) && (forall x :: s.Sees(x) && x.key == e.key ==> x.seqno <= e.seqno)
      && !e.kind.Tombstone? && !e.kind.WeakTombstone? && !s.Deletes(e)
  {
    hide Merged, ScanMeaning, EntrySuppressed, Snapshot.Sees, Snapshot.Deletes, Snapshot.Sources, Snapshot.Tombstones;
    var m := Entries(Merged(s.Sources()));
    forall x ensures x in m <==> s.Sees(x) {
      SourcesHold(s, x);
    }
    SuppressedIsDeleted(s, e);
    assert Ordered(m) by { SnapshotOrdered(s); }
    MeaningIsNewest(m, s.Tombstones(), e);
  }

  lemma SnapshotOrdered(s: Snapshot)
    requires s.Valid()
    ensures Ordered(Entries(Merged(s.Sources())))
  {
    hide Merged, ValidTable, ValidRun, SourceSorted;
    AllSourcesSorted(s.tables, s.runs, s.memtables, s.lo, s.hi, s.seqno);
    MergedOrdered(s.Sources());
  }

  /** Rows come in key order, each key at most once, whatever the operator. */
  lemma ShowsEachKeyOnce(s: Snapshot, op: Option<MergeOp>)
    requires s.Valid()
    ensures RowsAscend(ScanMeaning(Entries(Merged(s.Sources())), op, s.Tombstones()))
  {
    hide Merged, ScanMeaning, Scanned, Collapse, Filter, RowsAscend, Snapshot.Tombstones;
    var m, rts := Entries(Merged(s.Sources())), s.Tombstones();
    SnapshotOrdered(s);
    ScanIsMeaning(m, op, rts);
    ScannedAscends(m, op, rts);
  }

  lemma ScannedAscends(m: seq<Entry>, op: Option<MergeOp>, rts: seq<Sourced>)
    requires Ordered(m)
    ensures RowsAscend(Scanned(m, op, rts))
  {
    hide Collapse, Filter, RowsAscend;
    CollapseAscends(m, op, rts);
    FilterAscends(Collapse(m, op, rts), NotTombstone);
    FilterAscends(Filter(Collapse(m, op, rts), NotTombstone), Survives(rts));
  }

  // --- rows with a merge operator ---

  /** Each entry of the scan is in one source, once. */
  ghost predicate OneHome(s: Snapshot) {
    VersionsUnique(s) && Distinct(Entries(Merged(s.Sources())))
  }

  ghost predicate Distinct(m: seq<Entry>) {
    forall i, j :: 0 <= i < j < |m| ==> m[i] != m[j]
  }

  /** Newest first, strictly. */
  ghost predicate Descending(s: seq<Entry>) {
    forall i, j :: 0 <= i < j < |s| ==> s[i].seqno > s[j].seqno
  }

  lemma {:induction false} FilterDistinct(m: seq<Entry>, keep: Entry -> bool)
    requires Distinct(m)
    ensures Distinct(Filter(m, keep))
  {
    if m != [] {
      var rest := Filter(m[1..], keep);
      FilterDistinct(m[1..], keep);
      FilterMembers(m[1..], keep);
      assert m[0] !in m[1..];
      assert forall i :: 0 <= i < |rest| ==> rest[i] in rest;
    }
  }

  lemma {:induction false} DescendingUnique(a: seq<Entry>, b: seq<Entry>)
    requires Descending(a) && Descending(b) && forall e :: e in a <==> e in b
    ensures a == b
  {
    if a == [] {
      assert forall i :: 0 <= i < |b| ==> b[i] in b;
    } else {
      assert a[0] in b && b != [];
      var j :| 0 <= j < |b| && b[j] == a[0];
      assert b[0] in a;
      assert j == 0;
      assert forall e :: e in a[1..] <==> e in a && e != a[0];
      assert forall e :: e in b[1..] <==> e in b && e != b[0];
      DescendingUnique(a[1..], b[1..]);
    }
  }

  /** Newer than `base`, if there is one. */
  predicate Newer(e: Entry, base: Option<Entry>) {
    base.Some? ==> base.value.seqno < e.seqno
  }

  lemma {:induction false} SplitAt(s: seq<Entry>, base: Option<Entry>) returns (k: nat)
    requires Descending(s)
    ensures k <= |s| && (forall i :: 0 <= i < k ==> Newer(s[i], base)) && (forall i :: k <= i < |s| ==> !Newer(s[i], base))
  {
    if s == [] || !Newer(s[0], base) {
      k := 0;
    } else {
      var rest := SplitAt(s[1..], base);
      k := rest + 1;
      forall i | 0 <= i < |s| ensures Newer(s[i], base) <==> i < k {
        assert i > 0 ==> s[i] == s[1..][i - 1];
      }
    }
  }

  /** `ops`, oldest first, are all the operands newer than `base`, the newest version
      that is no operand, if there is one. */
  ghost predicate Stacked(alive: seq<Entry>, ops: seq<Entry>, base: Option<Entry>) {
    && (forall i, j :: 0 <= i < j < |ops| ==> ops[i].seqno < ops[j].seqno)
    && (forall e :: e in ops <==> e in alive && Newer(e, base))
    && (forall e :: e in ops ==> e.kind.MergeOperand?)
    && (base.Some? ==> base.value in alive && !base.value.kind.MergeOperand?)
  }

  lemma StackedAlive(alive: seq<Entry>, ops: seq<Entry>, base: Option<Entry>)
    requires Descending(alive) && Stacked(alive, ops, base)
    ensures |ops| <= |alive| && alive[..|ops|] == Reversed(ops)
    ensures base.None? ==> |alive| == |ops|
    ensures base.Some? ==> |ops| < |alive| && alive[|ops|] == base.value
  {
    var k := SplitAt(alive, base);
    var top := alive[..k];
    forall e ensures e in top <==> e in Reversed(ops) {
      assert e in Reversed(ops) <==> e in ops by { ReversedMembers(ops, e); }
      if e in alive && Newer(e, base) {
        var i :| 0 <= i < |alive| && alive[i] == e;
        assert top[i] == e;
      }
    }
    DescendingUnique(top, Reversed(ops));
    assert k < |alive| ==> !Newer(alive[k], base);
    if base.Some? {
      var p :| 0 <= p < |alive| && alive[p] == base.value;
      assert p >= k;
    }
  }

  lemma ReversedMembers(s: seq<Entry>, e: Entry)
    ensures e in Reversed(s) <==> e in s
  {
    if i :| 0 <= i < |s| && s[i] == e {
      assert Reversed(s)[|s| - 1 - i] == e;
    }
  }

  function ValuesOf(ops: seq<Entry>): seq<UserValue> {
    if ops == [] then [] else [ops[0].value] + ValuesOf(ops[1..])
  }

  /** What a key shows: without operands the base, unless it is a tombstone; otherwise
      the operands folded onto it, oldest first, under the newest one's seqno. Operands
      on a blob pointer are left as they are. */
  function Shown(key: Key, ops: seq<Entry>, base: Option<Entry>, op: MergeOp): seq<Item> {
    if ops == [] then
      if base.None? || base.value.kind.Tombstone? || base.value.kind.WeakTombstone? then [] else [Row(base.value)]
    else
      var newest := ops[|ops| - 1];
      if base.Some? && base.value.kind.Indirection? then [Row(newest)]
      else
        var merged := op(key, if base.Some? && base.value.kind.Value? then Some(base.value.value) else None, ValuesOf(ops));
        [if merged.None? then MergeFailed else Row(Entry(key, newest.seqno, Value, merged.value))]
  }

  lemma FoldIsShown(alive: seq<Entry>, key: Key, ops: seq<Entry>, base: Option<Entry>, op: MergeOp)
    requires ops != [] && |ops| <= |alive| && LeadingOperands(alive) == |ops| && alive[0].key == key
    requires alive[..|ops|] == Reversed(ops)
    requires if base.None? then |alive| == |ops| else |ops| < |alive| && alive[|ops|] == base.value
    ensures [FoldOperands(alive, op)] == Shown(key, ops, base, op)
  {
    assert alive[0] == alive[..|ops|][0] == ops[|ops| - 1];
    hide LeadingOperands, ValuesOf, OldestValues, Reversed;
    SameValues(alive, ops);
  }

  lemma {:induction false} SameValues(alive: seq<Entry>, ops: seq<Entry>)
    requires |ops| <= |alive| && alive[..|ops|] == Reversed(ops)
    ensures OldestValues(alive, |ops|) == ValuesOf(ops)
  {
    if ops != [] {
      var n := |ops|;
      assert alive[n - 1] == alive[..n][n - 1] == ops[0];
      assert alive[..n - 1] == alive[..n][..n - 1] == Reversed(ops)[..n - 1] == Reversed(ops[1..]);
      SameValues(alive, ops[1..]);
    }
  }

  lemma StackedMeaning(versions: seq<Entry>, alive: seq<Entry>, key: Key, ops: seq<Entry>, base: Option<Entry>,
                       op: MergeOp, rts: seq<Sourced>)
    requires alive == Filter(versions, Alive(rts)) && Descending(alive) && Stacked(alive, ops, base)
    requires forall e :: e in alive ==> e.key == key
    ensures KeyMeaning(versions, Some(op), rts) == Shown(key, ops, base, op)
  {
    hide Filter, Alive, LeadingOperands, FoldOperands, Descending;
    StackedAlive(alive, ops, base);
    var n := |ops|;
    forall i | 0 <= i < n ensures alive[i] == ops[n - 1 - i] && alive[i].kind.MergeOperand? {
      assert alive[i] == alive[..n][i];
      assert ops[n - 1 - i] in ops;
    }
    if n > 0 {
      hide Shown;
      LeadingIs(alive, n);
      assert alive[0] in alive;
      FoldIsShown(alive, key, ops, base, op);
    }
  }

  lemma {:induction false} LeadingIs(alive: seq<Entry>, n: nat)
    requires n <= |alive| && forall i :: 0 <= i < n ==> alive[i].kind.MergeOperand?
    requires n < |alive| ==> !alive[n].kind.MergeOperand?
    ensures LeadingOperands(alive) == n
  {
    if n > 0 {
      LeadingIs(alive[1..], n - 1);
    }
  }

  /** With a merge operator, each key shows its operands folded, oldest first, onto the
      newest version that is no operand, among the versions the scan may see and that no
      range tombstone deletes. */
  lemma ShowsTheFold(s: Snapshot, op: MergeOp, key: Key, ops: seq<Entry>, base: Option<Entry>, item: Item)
    requires s.Valid() && OneHome(s)
    requires forall i, j :: 0 <= i < j < |ops| ==> ops[i].seqno < ops[j].seqno
    requires forall e :: e in ops <==> s.Sees(e) && e.key == key && !s.Deletes(e) && Newer(e, base)
    requires forall e :: e in ops ==> e.kind.MergeOperand?
    requires base.Some? ==>
      s.Sees(base.value) && base.value.key == key && !s.Deletes(base.value) && !base.value.kind.MergeOperand?
    ensures item in Shown(key, ops, base, op) ==>
            item in ScanMeaning(Entries(Merged(s.Sources())), Some(op), s.Tombstones())
    ensures item.Row? && item.entry.key == key &&
            item in ScanMeaning(Entries(Merged(s.Sources())), Some(op), s.Tombstones()) ==>
            item in Shown(key, ops, base, op)
  {
    hide Merged, EntrySuppressed, Snapshot.Sees, Snapshot.Deletes, Snapshot.Sources, Snapshot.Tombstones;
    hide KeyMeaning, Filter, DistinctKeys, Shown, RowsOf, Distinct;
    var m, rts := Entries(Merged(s.Sources())), s.Tombstones();
    var versions := Filter(m, HasKey(key));
    var alive := Filter(versions, Alive(rts));
    KeyAlive(s, key);
    StackedMeaning(versions, alive, key, ops, base, op, rts);
    RowsOfMembers(DistinctKeys(m), m, Some(op), rts, item);
    SnapshotOrdered(s);
    DistinctKeysAscend(m);
    if item in Shown(key, ops, base, op) {
      assert key in DistinctKeys(m) by { SomethingShown(s, key, ops, base, op); }
    }
    if item.Row? && item.entry.key == key && item in ScanMeaning(m, Some(op), rts) {
      var k :| k in DistinctKeys(m) && item in KeyMeaning(Filter(m, HasKey(k)), Some(op), rts);
      FilterMembers(m, HasKey(k));
      RowHasKey(Filter(m, HasKey(k)), k, op, rts, item);
    }
  }

  /** The living versions of a key are those seen and not deleted, newest first. */
  lemma KeyAlive(s: Snapshot, key: Key)
    requires s.Valid() && OneHome(s)
    ensures
      var alive := Filter(Filter(Entries(Merged(s.Sources())), HasKey(key)), Alive(s.Tombstones()));
      && Descending(alive) && (forall e :: e in alive ==> e.key == key)
      && (forall e :: e in alive <==> s.Sees(e) && e.key == key && !s.Deletes(e))
  {
    hide Merged, EntrySuppressed, Snapshot.Sees, Snapshot.Deletes, Snapshot.Sources, Snapshot.Tombstones, Filter;
    var m, rts := Entries(Merged(s.Sources())), s.Tombstones();
    var versions := Filter(m, HasKey(key));
    FilterMembers(m, HasKey(key));
    FilterMembers(versions, Alive(rts));
    SnapshotOrdered(s);
    FilterOrdered(m, HasKey(key));
    FilterOrdered(versions, Alive(rts));
    FilterDistinct(m, HasKey(key));
    FilterDistinct(versions, Alive(rts));
    var alive := Filter(versions, Alive(rts));
    forall e ensures e in alive <==> s.Sees(e) && e.key == key && !s.Deletes(e) {
      SourcesHold(s, e);
      SuppressedIsDeleted(s, e);
    }
    forall i, j | 0 <= i < j < |alive| ensures alive[i].seqno > alive[j].seqno {
      assert alive[i] in alive && alive[j] in alive && !EntryLess(alive[j], alive[i]);
    }
  }

  lemma SomethingShown(s: Snapshot, key: Key, ops: seq<Entry>, base: Option<Entry>, op: MergeOp)
    requires s.Valid() && Shown(key, ops, base, op) != []
    requires forall e :: e in ops ==> s.Sees(e) && e.key == key
    requires base.Some? ==> s.Sees(base.value) && base.value.key == key
    ensures key in DistinctKeys(Entries(Merged(s.Sources())))
  {
    hide Merged, Snapshot.Sees, Snapshot.Sources, DistinctKeys;
    var e := if ops == [] then base.value else ops[0];
    assert ops != [] ==> ops[0] in ops;
    SourcesHold(s, e);
    SnapshotOrdered(s);
    DistinctKeysAscend(Entries(Merged(s.Sources())));
  }

  lemma RowHasKey(versions: seq<Entry>, key: Key, op: MergeOp, rts: seq<Sourced>, item: Item)
    requires item.Row? && item in KeyMeaning(versions, Some(op), rts)
    requires forall e :: e in versions ==> e.key == key
    ensures item.entry.key == key
  {
    hide Filter;
    FilterMembers(versions, Alive(rts));
    var alive := Filter(versions, Alive(rts));
    assert alive != [] ==> alive[0] in alive;
  }
}
