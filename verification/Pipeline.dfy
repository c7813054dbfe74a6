/**
 src/range.rs: the whole snapshot read, from merged entries to rows, against the
 meaning of a scan stated one key at a time.
 */
module Pipeline {
  import opened Core
  import opened RangeTombstones
  import opened Mvcc
  import opened TombstoneSkips
  import opened RtFilter

  /** What the stages compute: collapse, drop tombstones, drop what a range
      tombstone suppresses. */
  function Scanned(m: seq<Entry>, op: Option<MergeOp>, rts: seq<Sourced>): seq<Item> {
    Filter(Filter(Collapse(m, op, rts), NotTombstone), Survives(rts))
  }

  /** The one closure that the point-read path filters with. */
  function PointSurvives(rts: seq<Sourced>): Item -> bool {
    item => NotTombstone(item) && Survives(rts)(item)
  }

  /** The point-read path, one closure instead of two stages, gives the same rows. */
  lemma PointPathAgrees(m: seq<Entry>, op: Option<MergeOp>, rts: seq<Sourced>)
    ensures Filter(Collapse(m, op, rts), PointSurvives(rts)) == Scanned(m, op, rts)
  {
    FilterFilter(Collapse(m, op, rts), NotTombstone, Survives(rts), PointSurvives(rts));
  }

  // --- the meaning of a scan ---

  function Alive(rts: seq<Sourced>): Entry -> bool {
    e => !EntrySuppressed(rts, e)
  }

  function HasKey(key: Key): Entry -> bool {
    (e: Entry) => e.key == key
  }

  function OtherKey(key: Key): Entry -> bool {
    (e: Entry) => e.key != key
  }

  /** How many leading versions are merge operands. */
  function LeadingOperands(versions: seq<Entry>): (n: nat)
    ensures n <= |versions|
    ensures forall i :: 0 <= i < n ==> versions[i].kind.MergeOperand?
    ensures n < |versions| ==> !versions[n].kind.MergeOperand?
  {
    if versions == [] || !versions[0].kind.MergeOperand? then 0 else 1 + LeadingOperands(versions[1..])
  }

  /** The values of the first `n` versions, oldest first. */
  function OldestValues(versions: seq<Entry>, n: nat): seq<UserValue>
    requires n <= |versions|
  {
    if n == 0 then [] else [versions[n - 1].value] + OldestValues(versions, n - 1)
  }

  /** Folds the leading operands of some versions, oldest first, onto the version
      that ends them; a blob pointer there leaves the newest version as it is. */
  function FoldOperands(alive: seq<Entry>, op: MergeOp): Item
    requires alive != []
  {
    var n := LeadingOperands(alive);
    if n < |alive| && alive[n].kind.Indirection? then Row(alive[0])
    else
      var base := if n < |alive| && alive[n].kind.Value? then Some(alive[n].value) else None;
      var merged := op(alive[0].key, base, OldestValues(alive, n));
      if merged.None? then MergeFailed
      else Row(Entry(alive[0].key, alive[0].seqno, Value, merged.value))
  }

  /** The row of one key, from its versions, newest first. Suppressed versions do
      not exist; a deleted newest version hides the key. */
  function KeyMeaning(versions: seq<Entry>, op: Option<MergeOp>, rts: seq<Sourced>): seq<Item> {
    var alive := Filter(versions, Alive(rts));
    if alive == [] || alive[0].kind.IsTombstone() then []
    else if op.None? || !alive[0].kind.MergeOperand? then [Row(alive[0])]
    else [FoldOperands(alive, op.value)]
  }

  /** The keys of some entries, each once, in order of first appearance. */
  function DistinctKeys(m: seq<Entry>): seq<Key>
    decreases |m|
  {
    if m == [] then []
    else
      FilterMembers(m[1..], OtherKey(m[0].key));
      [m[0].key] + DistinctKeys(Filter(m[1..], OtherKey(m[0].key)))
  }

  function RowsOf(keys: seq<Key>, m: seq<Entry>, op: Option<MergeOp>, rts: seq<Sourced>): seq<Item> {
    if keys == [] then []
    else KeyMeaning(Filter(m, HasKey(keys[0])), op, rts) + RowsOf(keys[1..], m, op, rts)
  }

  /** The simple per-key meaning of a scan, key by key. */
  function ScanMeaning(m: seq<Entry>, op: Option<MergeOp>, rts: seq<Sourced>): seq<Item> {
    RowsOf(DistinctKeys(m), m, op, rts)
  }

  // --- one group of versions ---

  ghost predicate VersionsOf(group: seq<Entry>, key: Key) {
    Ordered(group) && forall e :: e in group ==> e.key == key
  }

  /** Suppression cuts a version list: everything at or below a suppressed
      version is suppressed. */
  lemma {:induction false} SuppressedTail(group: seq<Entry>, key: Key, rts: seq<Sourced>)
    requires VersionsOf(group, key) && group != [] && EntrySuppressed(rts, group[0])
    ensures Filter(group, Alive(rts)) == []
  {
    hide EntrySuppressed;
    forall e | e in group
      ensures !Alive(rts)(e)
    {
      var i :| 0 <= i < |group| && group[i] == e;
      assert group[0] in group;
      if i > 0 {
        assert !EntryLess(group[i], group[0]);
      }
      SuppressionIsDownwardClosed(rts, group[0], e);
    }
    FilterNone(group, Alive(rts));
  }

  function BaseOf(e: Entry): Base {
    if e.kind.IsTombstone() then NoBase else if e.kind.Value? then Plain(e.value) else Pointer
  }

  /** `scan` is the leading operands of `alive` and the version that ends them. */
  ghost predicate LeadingScan(alive: seq<Entry>, scan: Scan) {
    var n := LeadingOperands(alive);
    && |scan.operands| == n
    && (forall i :: 0 <= i < n ==> scan.operands[i] == alive[i].value)
    && scan.base == if n == |alive| then NoBase else BaseOf(alive[n])
  }

  lemma LeadingCons(e: Entry, rest: seq<Entry>, scan: Scan)
    requires LeadingScan(rest, scan)
    ensures e.kind.MergeOperand? ==> LeadingScan([e] + rest, Scan([e.value] + scan.operands, scan.base))
    ensures !e.kind.MergeOperand? ==> LeadingScan([e] + rest, Scan([], BaseOf(e)))
  {
    assert ([e] + rest)[1..] == rest;
  }

  lemma LeadingNothing()
    ensures LeadingScan([], Scan([], NoBase))
  {
  }

  lemma RestOfVersions(group: seq<Entry>, key: Key)
    requires VersionsOf(group, key) && group != []
    ensures VersionsOf(group[1..], key)
  {
    assert forall e :: e in group[1..] ==> e in group;
  }

  /** The streaming scan stops exactly where the living versions stop being operands. */
  lemma {:induction false} ScanIsLeading(group: seq<Entry>, key: Key, rts: seq<Sourced>)
    requires VersionsOf(group, key)
    ensures LeadingScan(Filter(group, Alive(rts)), ScanVersions(group, rts))
  {
    hide EntrySuppressed, LeadingScan;
    if group == [] || EntrySuppressed(rts, group[0]) {
      if group != [] {
        SuppressedTail(group, key, rts);
      }
      LeadingNothing();
    } else {
      var rest := group[1..];
      RestOfVersions(group, key);
      ScanIsLeading(rest, key, rts);
      LeadingCons(group[0], Filter(rest, Alive(rts)), ScanVersions(rest, rts));
    }
  }

  /** Resolving the scan of a group folds its living operands. */
  lemma ResolveFolds(group: seq<Entry>, alive: seq<Entry>, scan: Scan, op: MergeOp)
    requires group != [] && alive != [] && alive[0] == group[0] && LeadingScan(alive, scan)
    ensures ResolveMerge(group[0], scan, op) == FoldOperands(alive, op)
  {
    hide LeadingOperands, Reversed, OldestValues;
    OldestFirst(alive, scan.operands, |scan.operands|);
    assert scan.operands[..|scan.operands|] == scan.operands;
  }

  lemma {:induction false} OldestFirst(alive: seq<Entry>, operands: seq<UserValue>, n: nat)
    requires n <= |alive| && n <= |operands| && forall i :: 0 <= i < n ==> operands[i] == alive[i].value
    ensures Reversed(operands[..n]) == OldestValues(alive, n)
  {
    if n > 0 {
      OldestFirst(alive, operands, n - 1);
      assert Reversed(operands[..n]) == [operands[n - 1]] + Reversed(operands[..n - 1]);
    }
  }

  function Passing(item: Item, rts: seq<Sourced>): seq<Item> {
    if NotTombstone(item) && Survives(rts)(item) then [item] else []
  }

  lemma FilterOne(item: Item, rts: seq<Sourced>)
    ensures Filter(Filter([item], NotTombstone), Survives(rts)) == Passing(item, rts)
  {
    hide Survives;
    FilterFront([item], NotTombstone);
    FilterFront([item], Survives(rts));
  }

  /** What the stages make of one group is the meaning of its key. */
  lemma GroupMeaning(group: seq<Entry>, key: Key, op: Option<MergeOp>, rts: seq<Sourced>)
    requires VersionsOf(group, key) && group != []
    ensures Filter(Filter([ResolveGroup(group, op, rts)], NotTombstone), Survives(rts)) == KeyMeaning(group, op, rts)
  {
    FilterOne(ResolveGroup(group, op, rts), rts);
    if EntrySuppressed(rts, group[0]) {
      SuppressedTail(group, key, rts);
    } else {
      LivingGroup(group, key, op, rts);
    }
  }

  lemma LivingGroup(group: seq<Entry>, key: Key, op: Option<MergeOp>, rts: seq<Sourced>)
    requires VersionsOf(group, key) && group != [] && !EntrySuppressed(rts, group[0])
    ensures Passing(ResolveGroup(group, op, rts), rts) == KeyMeaning(group, op, rts)
  {
    hide ScanVersions, FoldOperands, Suppressed;
    var alive := Filter(group, Alive(rts));
    FilterFront(group, Alive(rts));
    assert alive[0] == group[0];
    if op.Some? && group[0].kind.MergeOperand? {
      ScanIsLeading(group, key, rts);
      ResolveFolds(group, alive, ScanVersions(group, rts), op.value);
    }
  }

  // --- whole scans ---

  lemma FirstGroupOrder(m: seq<Entry>, n: nat)
    requires Ordered(m) && m != [] && n == KeyRun(m, m[0].key)
    ensures VersionsOf(m[..n], m[0].key) && Ordered(m[n..])
    ensures forall e :: e in m[n..] ==> m[0].key < e.key
  {
    forall e | e in m[n..]
      ensures m[0].key < e.key
    {
      var i :| n <= i < |m| && m[i] == e;
      assert !EntryLess(m[n], m[0]) && (n < i ==> !EntryLess(m[i], m[n]));
    }
  }

  /** Ordered entries start with every version of their first key. */
  lemma FirstGroup(m: seq<Entry>, n: nat)
    requires Ordered(m) && m != [] && n == KeyRun(m, m[0].key)
    ensures VersionsOf(m[..n], m[0].key) && Ordered(m[n..])
    ensures Filter(m, HasKey(m[0].key)) == m[..n]
    ensures Filter(m[1..], OtherKey(m[0].key)) == m[n..]
    ensures forall e :: e in m[n..] ==> m[0].key < e.key
  {
    hide Filter, Ordered;
    var key, group, rest := m[0].key, m[..n], m[n..];
    var tail := group[1..];
    assert m == group + rest && m[1..] == tail + rest;
    FirstGroupOrder(m, n);
    assert forall e :: e in tail ==> e in group;
    FilterConcat(group, rest, HasKey(key));
    FilterAll(group, HasKey(key));
    FilterNone(rest, HasKey(key));
    FilterConcat(tail, rest, OtherKey(key));
    FilterNone(tail, OtherKey(key));
    FilterAll(rest, OtherKey(key));
  }

  lemma OtherGroups(m: seq<Entry>, n: nat, key: Key)
    requires n <= |m| && forall i :: 0 <= i < n ==> m[i].key != key
    ensures Filter(m, HasKey(key)) == Filter(m[n..], HasKey(key))
  {
    assert m == m[..n] + m[n..];
    FilterConcat(m[..n], m[n..], HasKey(key));
    FilterNone(m[..n], HasKey(key));
  }

  lemma {:induction false} RowsOfRest(keys: seq<Key>, m: seq<Entry>, n: nat, op: Option<MergeOp>, rts: seq<Sourced>)
    requires n <= |m| && forall i, k :: 0 <= i < n && k in keys ==> m[i].key != k
    ensures RowsOf(keys, m, op, rts) == RowsOf(keys, m[n..], op, rts)
  {
    if keys != [] {
      assert keys[0] in keys;
      OtherGroups(m, n, keys[0]);
      assert forall k :: k in keys[1..] ==> k in keys;
      RowsOfRest(keys[1..], m, n, op, rts);
    }
  }

  ghost predicate Ascending(keys: seq<Key>) {
    forall i, j :: 0 <= i < j < |keys| ==> keys[i] < keys[j]
  }

  lemma AscendingCons(key: Key, keys: seq<Key>)
    requires Ascending(keys) && forall k :: k in keys ==> key < k
    ensures Ascending([key] + keys)
  {
    assert forall j :: 0 <= j < |keys| ==> keys[j] in keys;
  }

  lemma NoKeysAscend()
    ensures Ascending([])
  {
  }

  /** The keys of ordered entries come strictly ascending, and none is missing. */
  lemma {:induction false} DistinctKeysAscend(m: seq<Entry>)
    requires Ordered(m)
    ensures Ascending(DistinctKeys(m))
    ensures forall k :: k in DistinctKeys(m) <==> exists e :: e in m && e.key == k
    decreases |m|
  {
    hide Ascending, Filter, Ordered;
    if m == [] {
      NoKeysAscend();
    } else {
      var n := KeyRun(m, m[0].key);
      var group, rest := m[..n], m[n..];
      assert m == group + rest && m[0] in m;
      FirstGroup(m, n);
      DistinctKeysAscend(rest);
      AscendingCons(m[0].key, DistinctKeys(rest));
      assert DistinctKeys(m) == [m[0].key] + DistinctKeys(rest);
    }
  }

  lemma ScannedStep(m: seq<Entry>, n: nat, op: Option<MergeOp>, rts: seq<Sourced>)
    requires Ordered(m) && m != [] && n == KeyRun(m, m[0].key)
    ensures Scanned(m, op, rts) == KeyMeaning(m[..n], op, rts) + Scanned(m[n..], op, rts)
  {
    hide KeyMeaning, ResolveGroup, Survives;
    var group, rest := [ResolveGroup(m[..n], op, rts)], Collapse(m[n..], op, rts);
    FirstGroup(m, n);
    CollapseFirst(m, n, op, rts);
    FilterConcat(group, rest, NotTombstone);
    FilterConcat(Filter(group, NotTombstone), Filter(rest, NotTombstone), Survives(rts));
    GroupMeaning(m[..n], m[0].key, op, rts);
  }

  /** The pipeline hands out, in key order, exactly the meaning of each key. */
  lemma {:induction false} ScanIsMeaning(m: seq<Entry>, op: Option<MergeOp>, rts: seq<Sourced>)
    requires Ordered(m)
    ensures Scanned(m, op, rts) == ScanMeaning(m, op, rts)
    decreases |m|
  {
    hide KeyMeaning, Collapse;
    if m == [] {
      CollapseNothing(op, rts);
    } else {
      var n := KeyRun(m, m[0].key);
      var rest := m[n..];
      FirstGroup(m, n);
      ScannedStep(m, n, op, rts);
      ScanIsMeaning(rest, op, rts);
      DistinctKeysAscend(rest);
      RowsOfRest(DistinctKeys(rest), m, n, op, rts);
      assert DistinctKeys(m) == [m[0].key] + DistinctKeys(rest);
    }
  }

  // --- without a merge operator ---

  lemma {:induction false} RowsOfMembers(keys: seq<Key>, m: seq<Entry>, op: Option<MergeOp>, rts: seq<Sourced>, item: Item)
    ensures item in RowsOf(keys, m, op, rts) <==>
            exists k :: k in keys && item in KeyMeaning(Filter(m, HasKey(k)), op, rts)
  {
    hide KeyMeaning, Filter;
    if keys != [] {
      RowsOfMembers(keys[1..], m, op, rts, item);
      assert keys == [keys[0]] + keys[1..];
    }
  }

  /** The newest version decides: it is shown, or nothing is. */
  lemma NewestDecides(versions: seq<Entry>, key: Key, rts: seq<Sourced>)
    requires VersionsOf(versions, key) && versions != []
    ensures KeyMeaning(versions, None, rts) ==
            if EntrySuppressed(rts, versions[0]) || versions[0].kind.IsTombstone() then [] else [Row(versions[0])]
  {
    hide EntrySuppressed;
    if EntrySuppressed(rts, versions[0]) {
      SuppressedTail(versions, key, rts);
    }
  }

  /** A scan without an operator shows exactly the newest version of each key, where that
      is neither a tombstone nor suppressed. */
  lemma MeaningIsNewest(m: seq<Entry>, rts: seq<Sourced>, e: Entry)
    requires Ordered(m)
    requires forall a, b :: a in m && b in m && a.key == b.key && a.seqno == b.seqno ==> a == b
    ensures Row(e) in ScanMeaning(m, None, rts) <==>
      && e in m && (forall x :: x in m && x.key == e.key ==> x.seqno <= e.seqno)
      && !e.kind.IsTombstone() && !EntrySuppressed(rts, e)
  {
    hide KeyMeaning, EntrySuppressed, DistinctKeys, RowsOf, Filter, Ordered;
    RowsOfMembers(DistinctKeys(m), m, None, rts, Row(e));
    DistinctKeysAscend(m);
    assert e in m ==> e.key in DistinctKeys(m);
    forall k | k in DistinctKeys(m)
      ensures Row(e) in KeyMeaning(Filter(m, HasKey(k)), None, rts) <==>
        && k == e.key && e in m && (forall x :: x in m && x.key == e.key ==> x.seqno <= e.seqno)
        && !e.kind.IsTombstone() && !EntrySuppressed(rts, e)
    {
      NewestOfKey(m, k, rts, e);
    }
  }

  lemma NewestOfKey(m: seq<Entry>, key: Key, rts: seq<Sourced>, e: Entry)
    requires Ordered(m) && exists x :: x in m && x.key == key
    requires forall a, b :: a in m && b in m && a.key == b.key && a.seqno == b.seqno ==> a == b
    ensures Row(e) in KeyMeaning(Filter(m, HasKey(key)), None, rts) <==>
      && key == e.key && e in m && (forall x :: x in m && x.key == e.key ==> x.seqno <= e.seqno)
      && !e.kind.IsTombstone() && !EntrySuppressed(rts, e)
  {
    hide KeyMeaning, EntrySuppressed, Filter;
    var versions := Filter(m, HasKey(key));
    FilterMembers(m, HasKey(key));
    FilterOrdered(m, HasKey(key));
    var x :| x in m && x.key == key;
    assert x in versions;
    NewestDecides(versions, key, rts);
    var newest := versions[0];
    assert newest in versions;
    forall y | y in versions ensures y.seqno <= newest.seqno {
      var i :| 0 <= i < |versions| && versions[i] == y;
      assert i > 0 ==> !EntryLess(versions[i], versions[0]);
    }
  }

  // --- what may be left out of a scan ---

  lemma KeyMeaningOfAlive(group: seq<Entry>, op: Option<MergeOp>, rts: seq<Sourced>)
    ensures KeyMeaning(Filter(group, Alive(rts)), op, rts) == KeyMeaning(group, op, rts)
  {
    hide FoldOperands, EntrySuppressed;
    FilterMembers(group, Alive(rts));
    FilterAll(Filter(group, Alive(rts)), Alive(rts));
  }

  lemma {:induction false} FilterOrdered(m: seq<Entry>, keep: Entry -> bool)
    requires Ordered(m)
    ensures Ordered(Filter(m, keep))
  {
    if m != [] {
      FilterOrdered(m[1..], keep);
      FilterMembers(m[1..], keep);
      var rest := Filter(m[1..], keep);
      assert forall i :: 0 <= i < |rest| ==> rest[i] in rest;
    }
  }

  /** Suppressed entries contribute nothing: a scan of the living entries alone
      gives the same rows. */
  lemma {:induction false} ScanOfAlive(m: seq<Entry>, op: Option<MergeOp>, rts: seq<Sourced>)
    requires Ordered(m)
    ensures Scanned(Filter(m, Alive(rts)), op, rts) == Scanned(m, op, rts)
    decreases |m|
  {
    hide KeyMeaning, Scanned, Filter, Alive;
    if m == [] {
      FilterNone(m, Alive(rts));
    } else {
      var n := KeyRun(m, m[0].key);
      var group, rest := m[..n], m[n..];
      assert m == group + rest;
      FirstGroup(m, n);
      ScannedStep(m, n, op, rts);
      ScanOfAlive(rest, op, rts);
      KeyMeaningOfAlive(group, op, rts);
      FilterConcat(group, rest, Alive(rts));
      AliveStep(group, rest, m[0].key, op, rts);
    }
  }

  lemma AliveStep(group: seq<Entry>, rest: seq<Entry>, key: Key, op: Option<MergeOp>, rts: seq<Sourced>)
    requires VersionsOf(group, key) && Ordered(rest) && forall e :: e in rest ==> key < e.key
    ensures
      var alive, left := Filter(group, Alive(rts)), Filter(rest, Alive(rts));
      Scanned(alive + left, op, rts) == KeyMeaning(alive, op, rts) + Scanned(left, op, rts)
  {
    hide Alive, Scanned, KeyMeaning, Filter, Ordered;
    var alive, left := Filter(group, Alive(rts)), Filter(rest, Alive(rts));
    FilterMembers(group, Alive(rts));
    FilterMembers(rest, Alive(rts));
    FilterOrdered(group, Alive(rts));
    FilterOrdered(rest, Alive(rts));
    TwoParts(alive, left, key, op, rts);
  }

  lemma NoVersions(op: Option<MergeOp>, rts: seq<Sourced>)
    ensures KeyMeaning([], op, rts) == []
  {
  }

  /** All versions of one key followed by later keys scan separately. */
  lemma TwoParts(group: seq<Entry>, rest: seq<Entry>, key: Key, op: Option<MergeOp>, rts: seq<Sourced>)
    requires VersionsOf(group, key) && Ordered(rest) && forall e :: e in rest ==> key < e.key
    ensures Scanned(group + rest, op, rts) == KeyMeaning(group, op, rts) + Scanned(rest, op, rts)
  {
    hide Scanned, KeyMeaning, KeyRun;
    if group == [] {
      assert group + rest == rest;
      NoVersions(op, rts);
      assert [] + Scanned(rest, op, rts) == Scanned(rest, op, rts);
    } else {
      var m := group + rest;
      assert forall i :: 0 <= i < |rest| ==> rest[i] in rest;
      assert forall i :: 0 <= i < |group| ==> group[i] in group;
      KeyRunIs(m, m[0].key, |group|);
      ScannedStep(m, |group|, op, rts);
      assert m[..|group|] == group && m[|group|..] == rest;
    }
  }

  /** Leaving out any suppressed entries, in any number, changes no row. */
  lemma SkippingSuppressed(m: seq<Entry>, kept: seq<Entry>, op: Option<MergeOp>, rts: seq<Sourced>)
    requires Ordered(m) && Ordered(kept)
    requires Filter(kept, Alive(rts)) == Filter(m, Alive(rts))
    ensures Scanned(kept, op, rts) == Scanned(m, op, rts)
  {
    ScanOfAlive(m, op, rts);
    ScanOfAlive(kept, op, rts);
  }
}
