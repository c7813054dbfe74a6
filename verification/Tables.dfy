/** Range bounds, and the tables a scan reads through them. */
module Tables {
  import opened Core
  import opened MergeSpec
  import opened RangeTombstones

  predicate AboveLower(key: Key, lo: Bound<Key>) {
    match lo
    case Included(k) => k <= key
    case Excluded(k) => k < key
    case Unbounded => true
  }

  predicate BelowUpper(key: Key, hi: Bound<Key>) {
    match hi
    case Included(k) => key <= k
    case Excluded(k) => key < k
    case Unbounded => true
  }

  predicate InRange(key: Key, lo: Bound<Key>, hi: Bound<Key>) {
    AboveLower(key, lo) && BelowUpper(key, hi)
  }

  function InBounds(lo: Bound<Key>, hi: Bound<Key>): Entry -> bool {
    (e: Entry) => InRange(e.key, lo, hi)
  }

  /** A table with its recorded key range and highest entry seqno. */
  datatype Table = Table(min: Key, max: Key, kvSeqno: SeqNo, entries: seq<Entry>, tombstones: seq<RangeTombstone>)

  ghost predicate ValidTable(t: Table) {
    && t.min <= t.max
    && SourceSorted(t.entries)
    && (forall e :: e in t.entries ==> t.min <= e.key <= t.max && e.seqno <= t.kvSeqno)
  }

  /** A run: tables with disjoint key ranges, in order. */
  ghost predicate ValidRun(run: seq<Table>) {
    && (forall i :: 0 <= i < |run| ==> ValidTable(run[i]))
    && (forall i, j :: 0 <= i < j < |run| ==> run[i].max < run[j].min)
  }

  /** The entries of tables `i..j`, in order. */
  function RunEntries(run: seq<Table>, i: nat, j: nat): seq<Entry>
    requires i <= j <= |run|
    decreases j - i
  {
    if i == j then [] else run[i].entries + RunEntries(run, i + 1, j)
  }

  lemma {:induction false} RunEntriesMembers(run: seq<Table>, i: nat, j: nat)
    requires i <= j <= |run|
    ensures forall e :: e in RunEntries(run, i, j) <==> (exists k :: i <= k < j && e in run[k].entries)
    decreases j - i
  {
    if i < j {
      RunEntriesMembers(run, i + 1, j);
    }
  }

  /** A run is one sorted source. */
  lemma {:induction false} RunSorted(run: seq<Table>, i: nat, j: nat)
    requires i <= j <= |run| && ValidRun(run)
    ensures SourceSorted(RunEntries(run, i, j))
    decreases j - i
  {
    if i < j {
      RunSorted(run, i + 1, j);
      RunEntriesMembers(run, i + 1, j);
      var first, rest := run[i].entries, RunEntries(run, i + 1, j);
      assert ValidTable(run[i]);
      forall a, b | a in first && b in rest
        ensures EntryLess(a, b)
      {
        var k :| i + 1 <= k < j && b in run[k].entries;
        assert ValidTable(run[k]) && run[i].max < run[k].min;
      }
      assert forall k :: 0 <= k < |first| ==> first[k] in first;
      assert forall k :: 0 <= k < |rest| ==> rest[k] in rest;
    }
  }

  lemma {:induction false} FilterSorted(s: seq<Entry>, keep: Entry -> bool)
    requires SourceSorted(s)
    ensures SourceSorted(Filter(s, keep))
  {
    if s != [] {
      FilterSorted(s[1..], keep);
      FilterMembers(s[1..], keep);
      var rest := Filter(s[1..], keep);
      assert forall i :: 0 <= i < |rest| ==> rest[i] in rest;
      assert forall e :: e in s[1..] ==> EntryLess(s[0], e);
    }
  }
}
