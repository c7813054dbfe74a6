/** src/range_tombstone_filter.rs: suppression by a sweep from each end. */
module RtFilter {
  import opened Core
  import opened EntryStreams
  import opened RangeTombstones
  import opened ActiveTombstones
  import opened Sorting
  import opened TombstoneSkips
  import opened MergeSpec
  import opened Mvcc
  import opened Peekable

  /** Forward activation order: start ascending, then newest, then end ascending. */
  predicate ForwardLe(a: Sourced, b: Sourced) {
    a.rt.start < b.rt.start || (a.rt.start == b.rt.start &&
      (a.rt.seqno > b.rt.seqno || (a.rt.seqno == b.rt.seqno && a.rt.end <= b.rt.end)))
  }

  /** Reverse activation order: end descending, then newest, then start ascending. */
  predicate ReverseLe(a: Sourced, b: Sourced) {
    a.rt.end > b.rt.end || (a.rt.end == b.rt.end &&
      (a.rt.seqno > b.rt.seqno || (a.rt.seqno == b.rt.seqno && a.rt.start <= b.rt.start)))
  }

  /** The scan has entered the tombstone by the time it reaches `key`. */
  predicate Entered(forward: bool, s: Sourced, key: Key) {
    if forward then s.rt.start <= key else s.rt.end > key
  }

  /** `b` is not behind `a` in the direction of the scan. */
  predicate Ahead(forward: bool, a: Key, b: Key) {
    if forward then a <= b else a >= b
  }

  function Boundary(forward: bool, s: Sourced): (Key, SeqNo) {
    (if forward then s.rt.end else s.rt.start, s.rt.seqno)
  }

  /** What activating all of `rts` leaves active before anything expires. */
  ghost function Activated(forward: bool, rts: seq<Sourced>): set<(Key, SeqNo)> {
    set s | s in rts && s.rt.VisibleAt(s.cutoff) :: Boundary(forward, s)
  }

  /** `live` lacks nothing of `all` that still applies at `key`. */
  ghost predicate Keeps(forward: bool, live: set<(Key, SeqNo)>, all: set<(Key, SeqNo)>, key: Key) {
    && live <= all
    && (forall q :: q in all && !Expired(forward, q.0, key) ==> q in live)
  }

  ghost predicate ActivationOrdered(forward: bool, rts: seq<Sourced>) {
    forall i, j :: 0 <= i < j < |rts| ==>
      if forward then rts[i].rt.start <= rts[j].rt.start else rts[i].rt.end >= rts[j].rt.end
  }

  /** The position of a sweep that has come to `at`. */
  ghost predicate Swept(forward: bool, rts: seq<Sourced>, idx: nat, live: set<(Key, SeqNo)>, at: Option<Key>) {
    && idx <= |rts|
    && (at.None? ==> idx == 0 && live == {})
    && (at.Some? ==>
          && Keeps(forward, live, Activated(forward, rts[..idx]), at.value)
          && forall i :: 0 <= i < idx ==> Entered(forward, rts[i], at.value))
  }

  ghost predicate SameMembers<T(!new)>(a: seq<T>, b: seq<T>) {
    forall x :: x in a <==> x in b
  }

  /** One direction of the filter: its sorted tombstones, cursor and active set. */
  class Sweep {
    const forward: bool
    var tombstones: seq<Sourced>
    var idx: nat
    const active: ActiveSet
    var initialized: bool
    ghost const All: seq<Sourced>
    ghost var at: Option<Key>

    ghost predicate Valid()
      reads this, active
    {
      && active.Valid() && active.forward == forward
      && Swept(forward, tombstones, idx, Live(active.pendingExpiry), at)
      && (initialized ==> SameMembers(tombstones, All) && ActivationOrdered(forward, tombstones))
      && (!initialized ==> at.None?)
    }

    constructor (forward: bool, rts: seq<Sourced>, ghost all: seq<Sourced>)
      ensures Valid() && fresh(active)
      ensures this.forward == forward && tombstones == rts && All == all
      ensures !initialized && at == None
    {
      this.forward, tombstones, idx, initialized := forward, rts, 0, false;
      active := new ActiveSet(forward);
      All, at := all, None;
    }

    /** Sorts once; the order does not depend on the position of the scan. */
    method EnsureInitialized(rts: seq<Sourced>)
      requires Valid() && SameMembers(rts, All)
      modifies this
      ensures Valid() && initialized && at == old(at)
    {
      if !initialized {
        if forward {
          ForwardSorted(rts);
          tombstones := Sort(rts, ForwardLe);
        } else {
          ReverseSorted(rts);
          tombstones := Sort(rts, ReverseLe);
        }
        initialized := true;
      }
    }

    method ActivateUpTo(key: Key)
      requires Valid() && initialized
      requires at.Some? ==> Ahead(forward, at.value, key)
      modifies this, active
      ensures Valid() && initialized && at == Some(key)
      ensures forall i :: idx <= i < |tombstones| ==> !Entered(forward, tombstones[i], key)
    {
      hide Live, ActivationOrdered, Keeps, Activated, SameMembers, ActiveSet.Valid;
      SweepOn(forward, tombstones, idx, Live(active.pendingExpiry), at, key);
      at := Some(key);
      while idx < |tombstones| && Entered(forward, tombstones[idx], key)
        invariant Valid() && initialized && at == Some(key)
        invariant tombstones == old(tombstones)
      {
        var s := tombstones[idx];
        ActivateOne(forward, tombstones, idx, Live(active.pendingExpiry), key);
        active.Activate(s.rt, s.cutoff);
        idx := idx + 1;
      }
      StopsForGood(forward, tombstones, idx, key);
    }

    /** Moves the sweep to the entry; afterwards the newest active tombstone
        decides exactly as looking at every tombstone would. */
    method Covers(key: Key, seqno: SeqNo) returns (r: bool)
      requires Valid() && initialized
      requires at.Some? ==> Ahead(forward, at.value, key)
      modifies this, active
      ensures Valid() && initialized && at == Some(key)
      ensures r <==> Suppressed(All, key, seqno)
    {
      hide Live, ActivationOrdered, Activated, SameMembers, Suppressed;
      ActivateUpTo(key);
      ghost var before := Live(active.pendingExpiry);
      active.ExpireUntil(key);
      r := active.IsSuppressed(seqno);
      SweepDecides(forward, tombstones, idx, before, key, seqno);
      MembersDecide(tombstones, All, key, seqno);
    }

    method Reset()
      requires Valid()
      modifies this, active
      ensures Valid() && at == None && initialized == old(initialized) && tombstones == old(tombstones)
    {
      idx := 0;
      at := None;
      active.Clear();
    }
  }

  lemma ForwardSorted(rts: seq<Sourced>)
    ensures SameMembers(Sort(rts, ForwardLe), rts) && ActivationOrdered(true, Sort(rts, ForwardLe))
  {
    SortSorts(rts, ForwardLe);
  }

  lemma ReverseSorted(rts: seq<Sourced>)
    ensures SameMembers(Sort(rts, ReverseLe), rts) && ActivationOrdered(false, Sort(rts, ReverseLe))
  {
    SortSorts(rts, ReverseLe);
  }

  /** Moving on expires nothing back to life. */
  lemma SweepOn(forward: bool, rts: seq<Sourced>, idx: nat, live: set<(Key, SeqNo)>, at: Option<Key>, key: Key)
    requires Swept(forward, rts, idx, live, at)
    requires at.Some? ==> Ahead(forward, at.value, key)
    ensures Swept(forward, rts, idx, live, Some(key))
  {
    if at.None? {
      assert rts[..idx] == [];
    }
  }

  lemma ActivateOne(forward: bool, rts: seq<Sourced>, idx: nat, live: set<(Key, SeqNo)>, key: Key)
    requires Swept(forward, rts, idx, live, Some(key))
    requires idx < |rts| && Entered(forward, rts[idx], key)
    ensures
      var s := rts[idx];
      Swept(forward, rts, idx + 1, live + Marked(forward, s.rt, s.cutoff), Some(key))
  {
    assert rts[..idx + 1] == rts[..idx] + [rts[idx]];
  }

  lemma StopsForGood(forward: bool, rts: seq<Sourced>, idx: nat, key: Key)
    requires ActivationOrdered(forward, rts)
    requires idx >= |rts| || !Entered(forward, rts[idx], key)
    ensures forall i :: idx <= i < |rts| ==> !Entered(forward, rts[i], key)
  {
  }

  /** What survives expiry at `key` is exactly what contains it. */
  lemma SweepDecides(forward: bool, rts: seq<Sourced>, idx: nat, before: set<(Key, SeqNo)>, key: Key, seqno: SeqNo)
    requires Swept(forward, rts, idx, before, Some(key))
    requires forall i :: idx <= i < |rts| ==> !Entered(forward, rts[i], key)
    ensures
      var live := set q | q in before && !Expired(forward, q.0, key);
      && Swept(forward, rts, idx, live, Some(key))
      && ((exists q :: q in live && seqno < q.1) <==> Suppressed(rts, key, seqno))
  {
    var live := set q | q in before && !Expired(forward, q.0, key);
    if q :| q in live && seqno < q.1 {
      var s :| s in rts[..idx] && s.rt.VisibleAt(s.cutoff) && Boundary(forward, s) == q;
      var i :| 0 <= i < idx && rts[i] == s;
      assert Entered(forward, rts[i], key);
      assert s in rts && s.rt.ShouldSuppress(key, seqno, s.cutoff);
    }
    if Suppressed(rts, key, seqno) {
      var s :| s in rts && s.rt.ShouldSuppress(key, seqno, s.cutoff);
      var i :| 0 <= i < |rts| && rts[i] == s;
      assert i < idx && rts[..idx][i] == s;
      assert Boundary(forward, s) in live;
    }
  }

  lemma MembersDecide(a: seq<Sourced>, b: seq<Sourced>, key: Key, seqno: SeqNo)
    requires SameMembers(a, b)
    ensures Suppressed(a, key, seqno) == Suppressed(b, key, seqno)
  {
  }

  /** Rows come in strictly ascending key order. */
  ghost predicate RowsAscend(s: seq<Item>) {
    forall i, j :: 0 <= i < j < |s| && s[i].Row? && s[j].Row? ==> s[i].entry.key < s[j].entry.key
  }

  /** Every row lies on the far side of the sweep. */
  ghost predicate RowsAhead(forward: bool, at: Option<Key>, s: seq<Item>) {
    forall i :: 0 <= i < |s| && s[i].Row? && at.Some? ==> Ahead(forward, at.value, s[i].entry.key)
  }

  /** The simple meaning of the filter: an item passes unless some tombstone
      suppresses it. */
  function Survives(rts: seq<Sourced>): Item -> bool {
    (item: Item) => item.Row? ==> !EntrySuppressed(rts, item.entry)
  }

  class RangeTombstoneFilter {
    const inner: TombstoneSkip
    const fwd: Sweep
    const rev: Sweep
    ghost const Repr: set<object>

    ghost predicate Valid()
      reads this, Repr
    {
      && this in Repr && inner in Repr && fwd in Repr && rev in Repr && fwd.active in Repr && rev.active in Repr
      && Repr == {this, fwd, rev, fwd.active, rev.active} + inner.Repr
      && {this as object, fwd, rev, fwd.active, rev.active} !! inner.Repr
      && fwd != rev && fwd.active != rev.active
      && inner.Valid() && fwd.Valid() && rev.Valid()
      && fwd.forward && !rev.forward && fwd.All == rev.All
      && SameMembers(fwd.tombstones, fwd.All)
      && RowsAscend(inner.Contents())
      && RowsAhead(true, fwd.at, inner.Contents())
      && RowsAhead(false, rev.at, inner.Contents())
    }

    ghost function Contents(): seq<Item>
      requires Valid()
      reads this, Repr
    {
      Filter(inner.Contents(), Survives(fwd.All))
    }

    /** A deque whatever the order of the calls. */
    predicate Steady() {
      inner.Steady()
    }

    /** Pulling in this direction is right. */
    ghost predicate Fit(forward: bool)
      requires Valid()
      reads this, Repr
    {
      inner.Fit(forward)
    }

    /** And it has not been done yet. */
    ghost predicate Untouched(forward: bool)
      requires Valid()
      reads this, Repr
    {
      inner.Untouched(forward)
    }

    constructor (skip: TombstoneSkip, rts: seq<Sourced>)
      requires skip.Valid() && RowsAscend(skip.Contents())
      ensures Valid() && inner == skip && fwd.All == rts && fresh(Repr - skip.Repr)
    {
      hide MvccStream.Valid, TombstoneSkip.Contents, RowsAscend, Filter, Live, Swept, ActivationOrdered;
      inner := skip;
      var f := new Sweep(true, rts, rts);
      var r := new Sweep(false, [], rts);
      fwd, rev := f, r;
      Repr := {this, f, r, f.active, r.active} + skip.Repr;
    }

    method Next() returns (r: Option<Item>)
      requires Valid() && Fit(true)
      modifies Repr
      ensures Valid() && Fit(true) && (old(Untouched(false)) ==> Untouched(false))
      ensures PoppedFront(old(Contents()), r, Contents())
    {
      hide Filter, PoppedFront, RowsAscend, RowsAhead, SameMembers, Sweep.Valid, TombstoneSkip.Contents, TombstoneSkip.Valid;
      hide TombstoneSkip.Fit, TombstoneSkip.Untouched;
      fwd.EnsureInitialized(fwd.tombstones);
      InitializedMembers(fwd);
      ghost var s := Contents();
      while true
        invariant Valid() && Fit(true) && (old(Untouched(false)) ==> Untouched(false))
        invariant fwd.initialized && Contents() == s
        decreases |inner.Contents()|
      {
        ghost var before := inner.Contents();
        r := inner.Next();
        FrontShrinks(before, r, inner.Contents());
        FilteredFront(before, r, inner.Contents(), Survives(fwd.All));
        AscendFront(before, r, inner.Contents(), fwd.at, rev.at);
        if r.None? || r.value.MergeFailed? {
          return;
        }
        var kv := r.value.entry;
        var suppressed := fwd.Covers(kv.key, kv.seqno);
        InitializedMembers(fwd);
        if !suppressed {
          return;
        }
      }
    }

    method NextBack() returns (r: Option<Item>)
      requires Valid() && Fit(false)
      modifies Repr
      ensures Valid() && Fit(false) && (old(Untouched(true)) ==> Untouched(true))
      ensures PoppedBack(old(Contents()), r, Contents())
    {
      hide Filter, PoppedBack, RowsAscend, RowsAhead, SameMembers, Sweep.Valid, TombstoneSkip.Contents, TombstoneSkip.Valid;
      hide TombstoneSkip.Fit, TombstoneSkip.Untouched;
      if !rev.initialized {
        fwd.EnsureInitialized(fwd.tombstones);
        InitializedMembers(fwd);
        rev.EnsureInitialized(fwd.tombstones);
      }
      ghost var s := Contents();
      while true
        invariant Valid() && Fit(false) && (old(Untouched(true)) ==> Untouched(true))
        invariant rev.initialized && Contents() == s
        decreases |inner.Contents()|
      {
        ghost var before := inner.Contents();
        r := inner.NextBack();
        BackShrinks(before, r, inner.Contents());
        FilteredBack(before, r, inner.Contents(), Survives(fwd.All));
        AscendBack(before, r, inner.Contents(), fwd.at, rev.at);
        if r.None? || r.value.MergeFailed? {
          return;
        }
        var kv := r.value.entry;
        var suppressed := rev.Covers(kv.key, kv.seqno);
        if !suppressed {
          return;
        }
      }
    }

    lemma SteadyIsFit(forward: bool)
      requires Valid() && Steady()
      ensures Fit(forward)
    {
    }

    method Answer(forward: bool) returns (r: Option<Item>)
      requires Valid() && Fit(forward)
      modifies Repr
      ensures Valid() && Fit(forward)
      ensures PoppedEnd(forward, old(Contents()), r, Contents())
    {
      hide RangeTombstoneFilter.Valid, RangeTombstoneFilter.Contents, RangeTombstoneFilter.Fit;
      hide RangeTombstoneFilter.Untouched, RangeTombstoneFilter.Steady, PoppedFront, PoppedBack;
      if forward {
        r := Next();
      } else {
        r := NextBack();
      }
    }

    /** Over a steady stream every list of calls is answered as by a deque. */
    method Interleave(calls: seq<bool>) returns (out: seq<Option<Item>>)
      requires Valid() && Steady()
      modifies Repr
      ensures Valid() && out == Served(old(Contents()), calls)
    {
      hide RangeTombstoneFilter.Valid, RangeTombstoneFilter.Contents, RangeTombstoneFilter.Fit, RangeTombstoneFilter.Steady;
      hide PoppedFront, PoppedBack, Served;
      ghost var all := Contents();
      var rest := calls;
      out := [];
      while rest != []
        invariant Valid() && out + Served(Contents(), rest) == Served(all, calls)
      {
        ghost var before := Contents();
        SteadyIsFit(rest[0]);
        var r := Answer(rest[0]);
        ServedOne(before, r, Contents(), rest);
        out := out + [r];
        rest := rest[1..];
      }
      ServedNothing(Contents());
    }

    /** Repositions the whole pipeline; both sweeps start over. */
    method Reseek(positioned: seq<seq<Entry>>)
      requires Valid() && inner.inner.inner.iter.CanReseek(positioned)
      requires inner.inner.inner.iter.Coherent? ==> Ordered(positioned[0])
      modifies Repr
      ensures Valid() && Untouched(true) && Untouched(false)
      ensures inner.inner.inner.Contents() == inner.inner.inner.iter.Positioned(positioned)
    {
      hide Filter, Collapse, RowsAscend, SameMembers, Sweep.Valid, MvccStream.Valid, Ordered;
      hide EntryStream.CanReseek, EntryStream.Positioned;
      hide DoubleEndedPeekable.Contents, DoubleEndedPeekable.Valid, DoubleEndedPeekable.Untouched;
      PositionedAscends(inner.inner.inner.iter, positioned, inner.inner.mergeOperator, inner.inner.rangeTombstones);
      fwd.Reset();
      rev.Reset();
      inner.Reseek(positioned);
    }
  }

  /** What the filter reads comes in key order. */
  lemma MergedAscends(sources: seq<seq<Entry>>, op: Option<MergeOp>, rts: seq<Sourced>)
    requires SourcesSorted(sources)
    ensures RowsAscend(Filter(Collapse(Entries(Merged(sources)), op, rts), NotTombstone))
  {
    hide Filter, Collapse, RowsAscend, Merged;
    MergedOrdered(sources);
    CollapseAscends(Entries(Merged(sources)), op, rts);
    FilterAscends(Collapse(Entries(Merged(sources)), op, rts), NotTombstone);
  }

  lemma PositionedAscends(stream: EntryStream, positioned: seq<seq<Entry>>, op: Option<MergeOp>, rts: seq<Sourced>)
    requires stream.CanReseek(positioned) && (stream.Coherent? ==> Ordered(positioned[0]))
    ensures RowsAscend(Filter(Collapse(stream.Positioned(positioned), op, rts), NotTombstone))
  {
    hide Filter, Collapse, RowsAscend, Merged;
    if stream.Coherent? {
      CollapseAscends(positioned[0], op, rts);
      FilterAscends(Collapse(positioned[0], op, rts), NotTombstone);
    } else {
      MergedAscends(positioned, op, rts);
    }
  }

  lemma InitializedMembers(sweep: Sweep)
    requires sweep.Valid() && sweep.initialized
    ensures SameMembers(sweep.tombstones, sweep.All)
  {
  }

  lemma AscendFront(before: seq<Item>, r: Option<Item>, after: seq<Item>, lo: Option<Key>, hi: Option<Key>)
    requires PoppedFront(before, r, after) && RowsAscend(before)
    requires RowsAhead(true, lo, before) && RowsAhead(false, hi, before)
    ensures RowsAscend(after) && RowsAhead(true, lo, after) && RowsAhead(false, hi, after)
    ensures r.Some? && r.value.Row? ==>
      && RowsAhead(true, Some(r.value.entry.key), after)
      && (lo.Some? ==> Ahead(true, lo.value, r.value.entry.key))
  {
  }

  lemma AscendBack(before: seq<Item>, r: Option<Item>, after: seq<Item>, lo: Option<Key>, hi: Option<Key>)
    requires PoppedBack(before, r, after) && RowsAscend(before)
    requires RowsAhead(true, lo, before) && RowsAhead(false, hi, before)
    ensures RowsAscend(after) && RowsAhead(true, lo, after) && RowsAhead(false, hi, after)
    ensures r.Some? && r.value.Row? ==>
      && RowsAhead(false, Some(r.value.entry.key), after)
      && (hi.Some? ==> Ahead(false, hi.value, r.value.entry.key))
  {
  }

  /** Collapsing ordered entries gives rows in strictly ascending key order. */
  lemma {:induction false} CollapseAscends(s: seq<Entry>, op: Option<MergeOp>, rts: seq<Sourced>)
    requires Ordered(s)
    ensures RowsAscend(Collapse(s, op, rts))
    ensures forall i :: s != [] && 0 <= i < |Collapse(s, op, rts)| && Collapse(s, op, rts)[i].Row? ==>
              s[0].key <= Collapse(s, op, rts)[i].entry.key
    decreases |s|
  {
    hide Suppressed, ScanVersions;
    if s != [] {
      var n := KeyRun(s, s[0].key);
      var rest := s[n..];
      CollapseAscends(rest, op, rts);
      assert rest != [] ==> s[0].key < rest[0].key;
    }
  }

  lemma {:induction false} FilterAscends(s: seq<Item>, keep: Item -> bool)
    requires RowsAscend(s)
    ensures RowsAscend(Filter(s, keep))
  {
    if s != [] {
      var rest := Filter(s[1..], keep);
      FilterAscends(s[1..], keep);
      FilterMembers(s[1..], keep);
      assert forall x :: x in rest && x.Row? && s[0].Row? ==> s[0].entry.key < x.entry.key;
      assert forall i :: 0 <= i < |rest| ==> rest[i] in rest;
    }
  }
}
