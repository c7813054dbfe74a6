/** What merging sorted sources means: their union, in one order. */
module MergeSpec {
  import opened Core

  /** An entry with the index of the source it came from (src/heap.rs `HeapEntry`,
      src/seeking_merger.rs `MergerEntry`). */
  datatype Tagged = Tagged(source: nat, entry: Entry)

  /** Internal-key order; equal internal keys fall back to the source index. */
  predicate TaggedLess(a: Tagged, b: Tagged) {
    || EntryLess(a.entry, b.entry)
    || (a.entry.key == b.entry.key && a.entry.seqno == b.entry.seqno && a.source < b.source)
  }

  ghost predicate StrictlySorted(s: seq<Tagged>) {
    forall i, j :: 0 <= i < j < |s| ==> TaggedLess(s[i], s[j])
  }

  /** A source holds each internal key at most once, in order. */
  ghost predicate SourceSorted(s: seq<Entry>) {
    forall i, j :: 0 <= i < j < |s| ==> EntryLess(s[i], s[j])
  }

  ghost predicate SourcesSorted(sources: seq<seq<Entry>>) {
    forall i :: 0 <= i < |sources| ==> SourceSorted(sources[i])
  }

  ghost predicate FromSources(t: Tagged, sources: seq<seq<Entry>>) {
    t.source < |sources| && t.entry in sources[t.source]
  }

  /** `m` is the union of the sources in merge order. */
  ghost predicate MergeOf(m: seq<Tagged>, sources: seq<seq<Entry>>) {
    && StrictlySorted(m)
    && (forall t :: t in m <==> FromSources(t, sources))
  }

  /** Strictly sorted sequences with the same elements are the same. */
  lemma {:induction false} SortedUnique(a: seq<Tagged>, b: seq<Tagged>)
    requires StrictlySorted(a) && StrictlySorted(b)
    requires forall t :: t in a <==> t in b
    ensures a == b
  {
    if a == [] {
      assert forall i :: 0 <= i < |b| ==> b[i] in b;
    } else {
      assert a[0] in b;
      var j :| 0 <= j < |b| && b[j] == a[0];
      assert b[0] in a;
      assert j == 0;
      assert forall t :: t in a[1..] <==> t in a && t != a[0];
      assert forall t :: t in b[1..] <==> t in b && t != b[0];
      SortedUnique(a[1..], b[1..]);
    }
  }

  /** There is only one merge of given sources. */
  lemma MergeUnique(a: seq<Tagged>, b: seq<Tagged>, sources: seq<seq<Entry>>)
    requires MergeOf(a, sources) && MergeOf(b, sources)
    ensures a == b
  {
    SortedUnique(a, b);
  }

  /** A merge comes by key, versions of a key newest first, and the same version of
      several sources in the order of the sources. */
  lemma MergeOrder(m: seq<Tagged>, sources: seq<seq<Entry>>, i: nat, j: nat)
    requires MergeOf(m, sources) && i < j < |m|
    ensures
      var a, b := m[i], m[j];
      || a.entry.key < b.entry.key
      || (a.entry.key == b.entry.key && a.entry.seqno > b.entry.seqno)
      || (a.entry.key == b.entry.key && a.entry.seqno == b.entry.seqno && a.source < b.source)
  {
    assert TaggedLess(m[i], m[j]);
  }

  function Entries(m: seq<Tagged>): (s: seq<Entry>)
    ensures |s| == |m|
    ensures forall i :: 0 <= i < |m| ==> s[i] == m[i].entry
  {
    seq(|m|, i requires 0 <= i < |m| => m[i].entry)
  }

  lemma EntriesPop(forward: bool, before: seq<Tagged>, r: Option<Tagged>, after: seq<Tagged>)
    requires PoppedEnd(forward, before, r, after)
    ensures PoppedEnd(forward, Entries(before), if r.Some? then Some(r.value.entry) else None, Entries(after))
  {
    if before != [] {
      if forward {
        assert Entries(after) == Entries(before)[1..];
      } else {
        assert Entries(after) == Entries(before)[..|before| - 1];
      }
    }
  }

  // --- a merge always exists ---

  function InsertTagged(t: Tagged, m: seq<Tagged>): seq<Tagged> {
    if m == [] || TaggedLess(t, m[0]) then [t] + m else [m[0]] + InsertTagged(t, m[1..])
  }

  function AddSource(s: seq<Entry>, source: nat, m: seq<Tagged>): seq<Tagged> {
    if s == [] then m else InsertTagged(Tagged(source, s[0]), AddSource(s[1..], source, m))
  }

  /** The merge of the first `n` sources, one entry at a time. */
  function MergeAll(sources: seq<seq<Entry>>, n: nat): seq<Tagged>
    requires n <= |sources|
  {
    if n == 0 then [] else AddSource(sources[n - 1], n - 1, MergeAll(sources, n - 1))
  }

  lemma {:induction false} InsertTaggedWorks(t: Tagged, m: seq<Tagged>)
    requires StrictlySorted(m)
    requires forall x :: x in m ==> TaggedLess(t, x) || TaggedLess(x, t)
    ensures StrictlySorted(InsertTagged(t, m))
    ensures forall x :: x in InsertTagged(t, m) <==> x == t || x in m
  {
    if m != [] && !TaggedLess(t, m[0]) {
      InsertTaggedWorks(t, m[1..]);
      assert forall x :: x in m <==> x == m[0] || x in m[1..];
      var rest := InsertTagged(t, m[1..]);
      assert m[0] in m;
      assert forall x :: x in rest ==> TaggedLess(m[0], x);
    }
  }

  lemma {:induction false} AddSourceWorks(s: seq<Entry>, source: nat, m: seq<Tagged>)
    requires SourceSorted(s) && StrictlySorted(m)
    requires forall x :: x in m ==> x.source != source
    ensures StrictlySorted(AddSource(s, source, m))
    ensures forall x :: x in AddSource(s, source, m) <==> x in m || (x.source == source && x.entry in s)
  {
    if s != [] {
      var rest, t := AddSource(s[1..], source, m), Tagged(source, s[0]);
      AddSourceWorks(s[1..], source, m);
      assert forall e :: e in s <==> e == s[0] || e in s[1..];
      forall x | x in rest
        ensures TaggedLess(t, x) || TaggedLess(x, t)
      {
        if x !in m {
          assert EntryLess(s[0], x.entry);
        }
      }
      InsertTaggedWorks(t, rest);
    }
  }

  lemma {:induction false} MergeAllWorks(sources: seq<seq<Entry>>, n: nat)
    requires n <= |sources| && SourcesSorted(sources)
    ensures StrictlySorted(MergeAll(sources, n))
    ensures forall t :: t in MergeAll(sources, n) <==> FromSources(t, sources) && t.source < n
  {
    if n > 0 {
      MergeAllWorks(sources, n - 1);
      AddSourceWorks(sources[n - 1], n - 1, MergeAll(sources, n - 1));
    }
  }

  function Merged(sources: seq<seq<Entry>>): seq<Tagged> {
    MergeAll(sources, |sources|)
  }

  /** The merge of sorted sources exists. */
  lemma MergeExists(sources: seq<seq<Entry>>)
    requires SourcesSorted(sources)
    ensures MergeOf(Merged(sources), sources)
  {
    MergeAllWorks(sources, |sources|);
  }

  // --- merging entries, and thinning out what is merged ---

  /** Places an entry after every entry that is not greater. */
  function InsertEntry(e: Entry, m: seq<Entry>): seq<Entry> {
    if m == [] || EntryLess(e, m[0]) then [e] + m else [m[0]] + InsertEntry(e, m[1..])
  }

  function AddEntries(s: seq<Entry>, m: seq<Entry>): seq<Entry> {
    if s == [] then m else InsertEntry(s[0], AddEntries(s[1..], m))
  }

  /** The merge of sources without their indices: among equal internal keys the
      earlier source comes first. */
  function MergeEntries(sources: seq<seq<Entry>>): seq<Entry> {
    if sources == [] then []
    else AddEntries(sources[|sources| - 1], MergeEntries(sources[..|sources| - 1]))
  }

  lemma {:induction false} EntriesInsert(t: Tagged, m: seq<Tagged>)
    requires forall x :: x in m ==> x.source < t.source || TaggedLess(t, x) || EntryLess(x.entry, t.entry)
    requires forall x :: x in m ==> x.source <= t.source
    ensures Entries(InsertTagged(t, m)) == InsertEntry(t.entry, Entries(m))
  {
    hide Entries;
    if m == [] {
      EntriesCons(t, []);
    } else {
      assert m[0] in m && m == [m[0]] + m[1..];
      EntriesCons(m[0], m[1..]);
      if TaggedLess(t, m[0]) {
        EntriesCons(t, m);
      } else {
        assert forall x :: x in m[1..] ==> x in m;
        EntriesInsert(t, m[1..]);
        EntriesCons(m[0], InsertTagged(t, m[1..]));
      }
    }
  }

  lemma EntriesCons(t: Tagged, m: seq<Tagged>)
    ensures Entries([t] + m) == [t.entry] + Entries(m) && Entries([]) == []
    ensures Entries([t] + m)[1..] == Entries(m)
  {
  }

  lemma {:induction false} EntriesAdd(s: seq<Entry>, source: nat, m: seq<Tagged>)
    requires SourceSorted(s) && StrictlySorted(m)
    requires forall x :: x in m ==> x.source < source
    ensures Entries(AddSource(s, source, m)) == AddEntries(s, Entries(m))
  {
    if s != [] {
      EntriesAdd(s[1..], source, m);
      AddSourceWorks(s[1..], source, m);
      var t, rest := Tagged(source, s[0]), AddSource(s[1..], source, m);
      forall x | x in rest && x.source == source
        ensures TaggedLess(t, x)
      {
        assert EntryLess(s[0], x.entry);
      }
      EntriesInsert(t, rest);
    }
  }

  lemma {:induction false} EntriesMerge(sources: seq<seq<Entry>>, n: nat)
    requires n <= |sources| && SourcesSorted(sources)
    ensures Entries(MergeAll(sources, n)) == MergeEntries(sources[..n])
  {
    if n > 0 {
      EntriesMerge(sources, n - 1);
      MergeAllWorks(sources, n - 1);
      EntriesAdd(sources[n - 1], n - 1, MergeAll(sources, n - 1));
      assert sources[..n][..n - 1] == sources[..n - 1];
    }
  }

  lemma {:induction false} InsertOrdered(e: Entry, m: seq<Entry>)
    requires Ordered(m)
    ensures Ordered(InsertEntry(e, m))
    ensures forall x :: x in InsertEntry(e, m) <==> x == e || x in m
  {
    if m != [] && !EntryLess(e, m[0]) {
      InsertOrdered(e, m[1..]);
      assert forall x :: x in m <==> x == m[0] || x in m[1..];
      var rest := InsertEntry(e, m[1..]);
      assert forall x :: x in rest ==> !EntryLess(x, m[0]);
      assert forall i :: 0 <= i < |rest| ==> rest[i] in rest;
    }
  }

  lemma {:induction false} AddOrdered(s: seq<Entry>, m: seq<Entry>)
    requires Ordered(m)
    ensures Ordered(AddEntries(s, m))
    ensures forall x :: x in AddEntries(s, m) <==> x in s || x in m
  {
    if s != [] {
      AddOrdered(s[1..], m);
      InsertOrdered(s[0], AddEntries(s[1..], m));
      assert forall x :: x in s <==> x == s[0] || x in s[1..];
    }
  }

  lemma {:induction false} MergeEntriesOrdered(sources: seq<seq<Entry>>)
    ensures Ordered(MergeEntries(sources))
    ensures forall e :: e in MergeEntries(sources) <==> exists i :: 0 <= i < |sources| && e in sources[i]
  {
    if sources != [] {
      var front, last := sources[..|sources| - 1], sources[|sources| - 1];
      MergeEntriesOrdered(front);
      AddOrdered(last, MergeEntries(front));
      assert forall i :: 0 <= i < |front| ==> front[i] == sources[i];
    }
  }

  lemma MergedOrdered(sources: seq<seq<Entry>>)
    requires SourcesSorted(sources)
    ensures Ordered(Entries(Merged(sources)))
    ensures forall e :: e in Entries(Merged(sources)) <==> exists i :: 0 <= i < |sources| && e in sources[i]
  {
    EntriesMerge(sources, |sources|);
    assert sources[..|sources|] == sources;
    MergeEntriesOrdered(sources);
  }

  lemma {:induction false} FilterInsert(e: Entry, m: seq<Entry>, keep: Entry -> bool)
    requires Ordered(m)
    ensures Filter(InsertEntry(e, m), keep) == if keep(e) then InsertEntry(e, Filter(m, keep)) else Filter(m, keep)
  {
    if m == [] {
      assert Filter([e], keep) == if keep(e) then [e] else [];
    } else if EntryLess(e, m[0]) {
      FilterMembers(m, keep);
      var kept := Filter(m, keep);
      if kept != [] {
        assert kept[0] in m;
        assert EntryLess(e, kept[0]);
      }
      assert ([e] + m)[1..] == m;
    } else {
      FilterInsert(e, m[1..], keep);
      var rest := InsertEntry(e, m[1..]);
      assert ([m[0]] + rest)[1..] == rest;
      var kept := Filter(m[1..], keep);
      assert Filter(m, keep) == if keep(m[0]) then [m[0]] + kept else kept;
      assert ([m[0]] + kept)[1..] == kept;
    }
  }

  lemma {:induction false} FilterAdd(s: seq<Entry>, m: seq<Entry>, keep: Entry -> bool)
    requires Ordered(m)
    ensures Filter(AddEntries(s, m), keep) == AddEntries(Filter(s, keep), Filter(m, keep))
  {
    if s != [] {
      AddOrdered(s[1..], m);
      FilterAdd(s[1..], m, keep);
      FilterInsert(s[0], AddEntries(s[1..], m), keep);
      var rest := Filter(s[1..], keep);
      assert Filter(s, keep) == if keep(s[0]) then [s[0]] + rest else rest;
      assert ([s[0]] + rest)[1..] == rest;
    }
  }

  /** What is kept of each source, without the sources of which nothing is. */
  function KeptSources(sources: seq<seq<Entry>>, keep: Entry -> bool): seq<seq<Entry>> {
    if sources == [] then []
    else
      var kept := Filter(sources[|sources| - 1], keep);
      KeptSources(sources[..|sources| - 1], keep) + if kept == [] then [] else [kept]
  }

  lemma KeptSourcesAppend(sources: seq<seq<Entry>>, s: seq<Entry>, keep: Entry -> bool)
    ensures KeptSources(sources + [s], keep) ==
              KeptSources(sources, keep) + if Filter(s, keep) == [] then [] else [Filter(s, keep)]
  {
    assert (sources + [s])[..|sources|] == sources;
  }

  lemma {:induction false} KeptSourcesConcat(a: seq<seq<Entry>>, b: seq<seq<Entry>>, keep: Entry -> bool)
    ensures KeptSources(a + b, keep) == KeptSources(a, keep) + KeptSources(b, keep)
  {
    if b == [] {
      assert a + b == a;
    } else {
      var front, last := b[..|b| - 1], b[|b| - 1];
      assert a + b == (a + front) + [last];
      KeptSourcesAppend(a + front, last, keep);
      KeptSourcesConcat(a, front, keep);
    }
  }

  /** Filtering a merge is merging the filtered sources; sources of which nothing
      is left do not matter. */
  lemma {:induction false} FilterMerge(sources: seq<seq<Entry>>, keep: Entry -> bool)
    ensures Filter(MergeEntries(sources), keep) == MergeEntries(KeptSources(sources, keep))
  {
    if sources != [] {
      var front, last := sources[..|sources| - 1], sources[|sources| - 1];
      FilterMerge(front, keep);
      MergeEntriesOrdered(front);
      FilterAdd(last, MergeEntries(front), keep);
      var kept, f := KeptSources(front, keep), Filter(last, keep);
      assert KeptSources(sources, keep) == if f == [] then kept else kept + [f];
      assert (kept + [f])[..|kept|] == kept;
    }
  }
}
