/** src/heap.rs and src/merge.rs: merging sources from both ends of one heap. */
module Mergers {
  import opened Core
  import opened Sorting
  import opened MergeSpec

  /** Inserting before the first greater entry. */
  lemma {:induction false} InsertAt(t: Tagged, m: seq<Tagged>, k: nat)
    requires k <= |m|
    requires forall i :: 0 <= i < k ==> !TaggedLess(t, m[i])
    requires k < |m| ==> TaggedLess(t, m[k])
    ensures InsertTagged(t, m) == m[..k] + [t] + m[k..]
  {
    if k > 0 {
      InsertAt(t, m[1..], k - 1);
      assert m[..k] == [m[0]] + m[1..][..k - 1];
    }
  }

  /** A heap kept as a sorted vector, open at both ends. */
  class MergeHeap {
    var data: seq<Tagged>

    constructor ()
      ensures data == []
    {
      data := [];
    }

    method Push(entry: Tagged)
      requires StrictlySorted(data)
      modifies this
      ensures data == InsertTagged(entry, old(data))
    {
      var pos := PartitionPoint(data, (e: Tagged) => !TaggedLess(entry, e));
      InsertAt(entry, data, pos);
      data := data[..pos] + [entry] + data[pos..];
    }

    method PopMin() returns (r: Option<Tagged>)
      modifies this
      ensures PoppedFront(old(data), r, data)
    {
      if data == [] {
        return None;
      }
      r := Some(data[0]);
      data := data[1..];
    }

    method PopMax() returns (r: Option<Tagged>)
      modifies this
      ensures PoppedBack(old(data), r, data)
    {
      if data == [] {
        return None;
      }
      r := Some(data[|data| - 1]);
      data := data[..|data| - 1];
    }

    /** Replaces the minimum and slides the replacement right into its place. */
    method ReplaceMin(entry: Tagged) returns (r: Tagged)
      requires StrictlySorted(data) && data != []
      requires forall t :: t in data[1..] ==> TaggedLess(t, entry) || TaggedLess(entry, t)
      modifies this
      ensures r == old(data)[0]
      ensures data == InsertTagged(entry, old(data)[1..])
    {
      ghost var rest := data[1..];
      r := data[0];
      data := data[0 := entry];
      var i := 0;
      assert data == rest[..0] + [entry] + rest[0..];
      while i + 1 < |data| && TaggedLess(data[i + 1], data[i])
        invariant 0 <= i <= |rest|
        invariant data == rest[..i] + [entry] + rest[i..]
        invariant forall j :: 0 <= j < i ==> TaggedLess(rest[j], entry)
        decreases |rest| - i
      {
        assert data[i + 1] == rest[i];
        data := data[i := data[i + 1]][i + 1 := data[i]];
        i := i + 1;
        assert data == rest[..i] + [entry] + rest[i..];
      }
      assert i < |rest| ==> rest[i] in rest && data[i + 1] == rest[i];
      InsertAt(entry, rest, i);
    }

    /** Replaces the maximum and slides the replacement left into its place. */
    method ReplaceMax(entry: Tagged) returns (r: Tagged)
      requires StrictlySorted(data) && data != []
      modifies this
      ensures r == old(data)[|old(data)| - 1]
      ensures data == InsertTagged(entry, old(data)[..|old(data)| - 1])
    {
      ghost var rest := data[..|data| - 1];
      r := data[|data| - 1];
      data := data[|data| - 1 := entry];
      var i := |data| - 1;
      assert data == rest[..i] + [entry] + rest[i..];
      while i > 0 && TaggedLess(data[i], data[i - 1])
        invariant 0 <= i <= |rest|
        invariant data == rest[..i] + [entry] + rest[i..]
        invariant forall j :: i <= j < |rest| ==> TaggedLess(entry, rest[j])
      {
        assert data[i - 1] == rest[i - 1];
        data := data[i := data[i - 1]][i - 1 := data[i]];
        i := i - 1;
        assert data == rest[..i] + [entry] + rest[i..];
      }
      assert i > 0 ==> data[i - 1] == rest[i - 1];
      NotBelow(rest, i, entry);
      InsertAt(entry, rest, i);
    }
  }

  lemma NotBelow(rest: seq<Tagged>, i: nat, entry: Tagged)
    requires StrictlySorted(rest) && i <= |rest|
    requires i > 0 ==> !TaggedLess(entry, rest[i - 1])
    ensures forall j :: 0 <= j < i ==> !TaggedLess(entry, rest[j])
  {
    forall j | 0 <= j < i - 1
      ensures !TaggedLess(entry, rest[j])
    {
      assert TaggedLess(rest[j], rest[i - 1]);
    }
  }

  // --- lanes: what is left of each source, and what of it the heap holds ---

  datatype Lane = Lane(front: Option<Entry>, middle: seq<Entry>, back: Option<Entry>) {
    function All(): seq<Entry> {
      (if front.Some? then [front.value] else []) + middle + if back.Some? then [back.value] else []
    }

    predicate Holds(e: Entry) {
      front == Some(e) || back == Some(e)
    }
  }

  function Rests(lanes: seq<Lane>): (r: seq<seq<Entry>>)
    ensures |r| == |lanes|
    ensures forall i :: 0 <= i < |r| ==> r[i] == lanes[i].All()
  {
    seq(|lanes|, i requires 0 <= i < |lanes| => lanes[i].All())
  }

  ghost predicate HeldBy(t: Tagged, lanes: seq<Lane>) {
    t.source < |lanes| && lanes[t.source].Holds(t.entry)
  }

  /** The heap holds exactly the ends that were pulled out of the sources. */
  ghost predicate HeapHolds(data: seq<Tagged>, lanes: seq<Lane>) {
    && StrictlySorted(data)
    && (forall t :: t in data <==> HeldBy(t, lanes))
  }

  /** Every source with items still inside has its front end in the heap. */
  ghost predicate FrontsOut(lanes: seq<Lane>) {
    forall i :: 0 <= i < |lanes| && lanes[i].middle != [] ==> lanes[i].front.Some?
  }

  ghost predicate BacksOut(lanes: seq<Lane>) {
    forall i :: 0 <= i < |lanes| && lanes[i].middle != [] ==> lanes[i].back.Some?
  }

  lemma LaneMembers(lane: Lane)
    ensures forall e :: e in lane.All() <==> lane.Holds(e) || e in lane.middle
  {
  }

  /** Everything held is part of what is left. */
  lemma HeldIsLeft(t: Tagged, lanes: seq<Lane>)
    requires HeldBy(t, lanes)
    ensures FromSources(t, Rests(lanes))
  {
    LaneMembers(lanes[t.source]);
  }

  /** The first item left is an end that was pulled out. */
  lemma FirstIsHeld(lanes: seq<Lane>)
    requires SourcesSorted(Rests(lanes)) && FrontsOut(lanes) && Merged(Rests(lanes)) != []
    ensures HeldBy(Merged(Rests(lanes))[0], lanes)
  {
    hide StrictlySorted, Merged;
    var m := Merged(Rests(lanes));
    MergeExists(Rests(lanes));
    var t := m[0];
    assert t in m && FromSources(t, Rests(lanes));
    var lane := lanes[t.source];
    LaneMembers(lane);
    if t.entry in lane.middle {
      FrontBelow(lane, t.entry);
      var f := Tagged(t.source, lane.front.value);
      HeldIsLeft(f, lanes);
      FirstIsLeast(m, f);
    }
  }

  lemma LastIsHeld(lanes: seq<Lane>)
    requires SourcesSorted(Rests(lanes)) && BacksOut(lanes) && Merged(Rests(lanes)) != []
    ensures var m := Merged(Rests(lanes)); HeldBy(m[|m| - 1], lanes)
  {
    hide StrictlySorted, Merged;
    var m := Merged(Rests(lanes));
    MergeExists(Rests(lanes));
    var t := m[|m| - 1];
    assert t in m && FromSources(t, Rests(lanes));
    var lane := lanes[t.source];
    LaneMembers(lane);
    if t.entry in lane.middle {
      BackAbove(lane, t.entry);
      var b := Tagged(t.source, lane.back.value);
      HeldIsLeft(b, lanes);
      LastIsGreatest(m, b);
    }
  }

  /** The heap's minimum is the minimum of everything left. */
  lemma HeapMinIsFirst(data: seq<Tagged>, lanes: seq<Lane>)
    requires HeapHolds(data, lanes) && SourcesSorted(Rests(lanes)) && FrontsOut(lanes)
    ensures data == [] ==> Merged(Rests(lanes)) == []
    ensures data != [] ==> Merged(Rests(lanes)) != [] && Merged(Rests(lanes))[0] == data[0]
  {
    hide StrictlySorted, HeldBy, SourcesSorted, Rests, Merged, FrontsOut;
    var m := Merged(Rests(lanes));
    MergeExists(Rests(lanes));
    if m != [] {
      var t := m[0];
      FirstIsHeld(lanes);
      assert t in data;
      assert HeldBy(data[0], lanes) by { assert data[0] in data; }
      HeldIsLeft(data[0], lanes);
      FirstIsLeast(m, data[0]);
      FirstIsLeast(data, t);
    } else if data != [] {
      assert data[0] in data;
      HeldIsLeft(data[0], lanes);
    }
  }

  lemma FrontBelow(lane: Lane, e: Entry)
    requires SourceSorted(lane.All()) && e in lane.middle && lane.front.Some?
    ensures EntryLess(lane.front.value, e)
  {
    var i :| 0 <= i < |lane.middle| && lane.middle[i] == e;
    assert lane.All()[0] == lane.front.value && lane.All()[i + 1] == e;
  }

  lemma BackAbove(lane: Lane, e: Entry)
    requires SourceSorted(lane.All()) && e in lane.middle && lane.back.Some?
    ensures EntryLess(e, lane.back.value)
  {
    var k := if lane.front.Some? then 1 else 0;
    var i :| 0 <= i < |lane.middle| && lane.middle[i] == e;
    assert lane.All()[i + k] == e && lane.All()[|lane.All()| - 1] == lane.back.value;
  }

  lemma FirstIsLeast(m: seq<Tagged>, t: Tagged)
    requires StrictlySorted(m) && t in m
    ensures m[0] == t || TaggedLess(m[0], t)
  {
    var i :| 0 <= i < |m| && m[i] == t;
  }

  lemma LastIsGreatest(m: seq<Tagged>, t: Tagged)
    requires StrictlySorted(m) && t in m
    ensures m[|m| - 1] == t || TaggedLess(t, m[|m| - 1])
  {
    var i :| 0 <= i < |m| && m[i] == t;
  }

  lemma HeapMaxIsLast(data: seq<Tagged>, lanes: seq<Lane>)
    requires HeapHolds(data, lanes) && SourcesSorted(Rests(lanes)) && BacksOut(lanes)
    ensures data == [] ==> Merged(Rests(lanes)) == []
    ensures data != [] ==>
      var m := Merged(Rests(lanes));
      m != [] && m[|m| - 1] == data[|data| - 1]
  {
    hide StrictlySorted, HeldBy, SourcesSorted, Rests, Merged, BacksOut;
    var m := Merged(Rests(lanes));
    MergeExists(Rests(lanes));
    if m != [] {
      var t := m[|m| - 1];
      LastIsHeld(lanes);
      assert t in data;
      var top := data[|data| - 1];
      assert HeldBy(top, lanes) by { assert top in data; }
      HeldIsLeft(top, lanes);
      LastIsGreatest(m, top);
      LastIsGreatest(data, t);
    } else if data != [] {
      assert data[0] in data;
      HeldIsLeft(data[0], lanes);
    }
  }

  // --- one step of each kind ---

  /** The lane after its first item is taken: the source refills the front end. */
  function TakeFirst(lane: Lane): Lane {
    if lane.middle != [] then Lane(Some(lane.middle[0]), lane.middle[1..], lane.back)
    else if lane.front.Some? then Lane(None, [], lane.back)
    else Lane(None, [], None)
  }

  function TakeLast(lane: Lane): Lane {
    var n := |lane.middle|;
    if n > 0 then Lane(lane.front, lane.middle[..n - 1], Some(lane.middle[n - 1]))
    else if lane.back.Some? then Lane(lane.front, [], None)
    else Lane(None, [], None)
  }

  lemma TakeFirstDrops(lane: Lane)
    requires lane.All() != [] && (lane.middle != [] ==> lane.front.Some?)
    ensures TakeFirst(lane).All() == lane.All()[1..]
  {
  }

  lemma TakeLastDrops(lane: Lane)
    requires lane.All() != [] && (lane.middle != [] ==> lane.back.Some?)
    ensures TakeLast(lane).All() == lane.All()[..|lane.All()| - 1]
  {
  }

  /** Taking the first item of the merge takes the first item of its source. */
  lemma MergePopFront(rests: seq<seq<Entry>>, i: nat)
    requires SourcesSorted(rests) && Merged(rests) != []
    requires i < |rests| && Merged(rests)[0].source == i
    ensures rests[i] != [] && Merged(rests)[0].entry == rests[i][0]
    ensures SourcesSorted(rests[i := rests[i][1..]])
    ensures Merged(rests[i := rests[i][1..]]) == Merged(rests)[1..]
  {
    hide Merged;
    var m := Merged(rests);
    MergeExists(rests);
    assert FromSources(m[0], rests);
    var first := Tagged(i, rests[i][0]);
    assert first.entry in rests[i];
    FirstIsLeast(m, first);
    var j :| 0 <= j < |rests[i]| && rests[i][j] == m[0].entry;
    assert j == 0;
    var less := rests[i := rests[i][1..]];
    MergeExists(less);
    assert forall e :: e in rests[i] <==> e == rests[i][0] || e in rests[i][1..];
    assert rests[i][0] !in rests[i][1..];
    assert forall t :: t in m[1..] <==> t in m && t != m[0];
    MergeUnique(m[1..], Merged(less), less);
  }

  lemma MergePopBack(rests: seq<seq<Entry>>, i: nat)
    requires SourcesSorted(rests) && Merged(rests) != []
    requires i < |rests| && Merged(rests)[|Merged(rests)| - 1].source == i
    ensures rests[i] != [] && Merged(rests)[|Merged(rests)| - 1].entry == rests[i][|rests[i]| - 1]
    ensures SourcesSorted(rests[i := rests[i][..|rests[i]| - 1]])
    ensures Merged(rests[i := rests[i][..|rests[i]| - 1]]) == Merged(rests)[..|Merged(rests)| - 1]
  {
    hide Merged;
    var m, s := Merged(rests), rests[i];
    MergeExists(rests);
    var n := |m| - 1;
    assert m[n] in m && FromSources(m[n], rests);
    var last := Tagged(i, s[|s| - 1]);
    assert last.entry in s;
    LastIsGreatest(m, last);
    var j :| 0 <= j < |s| && s[j] == m[n].entry;
    assert j == |s| - 1;
    var less := rests[i := s[..|s| - 1]];
    MergeExists(less);
    assert forall e :: e in s <==> e == s[|s| - 1] || e in s[..|s| - 1];
    assert s[|s| - 1] !in s[..|s| - 1];
    assert forall t :: t in m[..n] <==> t in m && t != m[n];
    MergeUnique(m[..n], Merged(less), less);
  }

  /** Distinct items in play never compare equal. */
  lemma Comparable(a: Tagged, b: Tagged, rests: seq<seq<Entry>>)
    requires SourcesSorted(rests) && FromSources(a, rests) && FromSources(b, rests) && a != b
    ensures TaggedLess(a, b) || TaggedLess(b, a)
  {
    if a.source == b.source {
      var s := rests[a.source];
      assert SourceSorted(s);
      var i :| 0 <= i < |s| && s[i] == a.entry;
      var j :| 0 <= j < |s| && s[j] == b.entry;
    }
  }

  /** The heap after a push holds one more end. */
  lemma HoldsPushed(data: seq<Tagged>, rests: seq<seq<Entry>>, t: Tagged, after: seq<Lane>)
    requires StrictlySorted(data) && SourcesSorted(rests) && FromSources(t, rests) && t !in data
    requires forall x :: x in data ==> FromSources(x, rests)
    requires forall x :: HeldBy(x, after) <==> x == t || x in data
    ensures HeapHolds(InsertTagged(t, data), after)
    ensures forall x :: x in data ==> TaggedLess(x, t) || TaggedLess(t, x)
  {
    hide HeldBy;
    forall x | x in data
      ensures TaggedLess(t, x) || TaggedLess(x, t)
    {
      Comparable(t, x, rests);
    }
    InsertTaggedWorks(t, data);
  }

  /** Which ends a lane still holds after its first item is taken. */
  lemma TakeFirstHolds(lane: Lane)
    requires SourceSorted(lane.All()) && lane.All() != [] && (lane.middle != [] ==> lane.front.Some?)
    ensures forall e :: TakeFirst(lane).Holds(e) <==>
      (lane.middle != [] && e == lane.middle[0]) || (lane.Holds(e) && e != lane.All()[0])
    ensures lane.middle != [] ==> !lane.Holds(lane.middle[0]) && lane.middle[0] in lane.All()
  {
    var all := lane.All();
    if lane.front.Some? && lane.back.Some? {
      assert EntryLess(all[0], all[|all| - 1]);
    }
    if lane.middle != [] {
      FrontBelow(lane, lane.middle[0]);
      if lane.back.Some? {
        BackAbove(lane, lane.middle[0]);
      }
    }
  }

  lemma TakeLastHolds(lane: Lane)
    requires SourceSorted(lane.All()) && lane.All() != [] && (lane.middle != [] ==> lane.back.Some?)
    ensures
      var n := |lane.middle|;
      && (forall e :: TakeLast(lane).Holds(e) <==>
            (n > 0 && e == lane.middle[n - 1]) || (lane.Holds(e) && e != lane.All()[|lane.All()| - 1]))
      && (n > 0 ==> !lane.Holds(lane.middle[n - 1]) && lane.middle[n - 1] in lane.All())
  {
    var all, n := lane.All(), |lane.middle|;
    if lane.front.Some? && lane.back.Some? {
      assert EntryLess(all[0], all[|all| - 1]);
    }
    if n > 0 {
      BackAbove(lane, lane.middle[n - 1]);
      if lane.front.Some? {
        FrontBelow(lane, lane.middle[n - 1]);
      }
    }
  }

  ghost predicate Ready(data: seq<Tagged>, lanes: seq<Lane>, lo: bool, hi: bool) {
    && HeapHolds(data, lanes)
    && SourcesSorted(Rests(lanes))
    && (lo ==> FrontsOut(lanes))
    && (hi ==> BacksOut(lanes))
  }

  lemma HeapSorted(data: seq<Tagged>, lanes: seq<Lane>, lo: bool, hi: bool)
    requires Ready(data, lanes, lo, hi)
    ensures StrictlySorted(data)
  {
  }

  lemma HeldAt(data: seq<Tagged>, lanes: seq<Lane>, t: Tagged)
    requires HeapHolds(data, lanes) && t in data
    ensures t.source < |lanes| && lanes[t.source].Holds(t.entry)
  {
  }

  /** Taking the minimum: what the heap becomes, and that one item less is left. */
  lemma StepFront(data: seq<Tagged>, lanes: seq<Lane>, hi: bool)
    requires Ready(data, lanes, true, hi) && data != []
    ensures data[0].source < |lanes|
    ensures
      var i := data[0].source;
      var middle, after := lanes[i].middle, lanes[i := TakeFirst(lanes[i])];
      && PoppedFront(Merged(Rests(lanes)), Some(data[0]), Merged(Rests(after)))
      && (middle != [] ==>
            && (forall t :: t in data[1..] ==> TaggedLess(t, Tagged(i, middle[0])) || TaggedLess(Tagged(i, middle[0]), t))
            && Ready(InsertTagged(Tagged(i, middle[0]), data[1..]), after, true, hi))
      && (middle == [] ==> Ready(data[1..], after, true, hi))
  {
    hide Merged, StrictlySorted, SourcesSorted, InsertTagged, TaggedLess, HeapHolds;
    var rests := Rests(lanes);
    HeapMinIsFirst(data, lanes);
    HeldAt(data, lanes, data[0]);
    HeapSorted(data, lanes, true, hi);
    var i := data[0].source;
    var lane, after := lanes[i], lanes[i := TakeFirst(lanes[i])];
    MergePopFront(rests, i);
    assert rests[i] == lane.All();
    SortedAt(rests, i);
    TakeFirstDrops(lane);
    TakeFirstHolds(lane);
    assert Rests(after) == rests[i := rests[i][1..]];
    RemoveFirst(data);
    var refills := lane.middle != [];
    StepHeap(data, data[1..], data[0], lanes, refills, if refills then lane.middle[0] else data[0].entry, after, rests);
  }

  lemma RemoveFirst(data: seq<Tagged>)
    requires StrictlySorted(data) && data != []
    ensures StrictlySorted(data[1..])
    ensures forall t :: t in data[1..] <==> t in data && t != data[0]
  {
    assert forall t :: t in data <==> t == data[0] || t in data[1..];
  }

  lemma RemoveLast(data: seq<Tagged>)
    requires StrictlySorted(data) && data != []
    ensures StrictlySorted(data[..|data| - 1])
    ensures forall t :: t in data[..|data| - 1] <==> t in data && t != data[|data| - 1]
  {
    assert forall t :: t in data <==> t == data[|data| - 1] || t in data[..|data| - 1];
  }

  /** The heap with `gone` removed and, if the source refills, `new` pushed. */
  lemma StepHeap(data: seq<Tagged>, less: seq<Tagged>, gone: Tagged, lanes: seq<Lane>,
                 refills: bool, pulled: Entry, after: seq<Lane>, rests: seq<seq<Entry>>)
    requires HeapHolds(data, lanes) && SourcesSorted(rests) && rests == Rests(lanes)
    requires gone.source < |lanes| == |after| && after == lanes[gone.source := after[gone.source]]
    requires StrictlySorted(less) && forall t :: t in less <==> t in data && t != gone
    requires forall e :: after[gone.source].Holds(e) <==>
               (refills && e == pulled) || (lanes[gone.source].Holds(e) && e != gone.entry)
    requires refills ==> !lanes[gone.source].Holds(pulled) && pulled in rests[gone.source]
    ensures refills ==> HeapHolds(InsertTagged(Tagged(gone.source, pulled), less), after)
    ensures refills ==> forall t :: t in less ==>
              TaggedLess(t, Tagged(gone.source, pulled)) || TaggedLess(Tagged(gone.source, pulled), t)
    ensures !refills ==> HeapHolds(less, after)
  {
    hide StrictlySorted, SourcesSorted;
    forall t
      ensures HeldBy(t, after) <==> (refills && t == Tagged(gone.source, pulled)) || t in less
    {
    }
    if refills {
      forall x | x in less
        ensures FromSources(x, rests)
      {
        HeldIsLeft(x, lanes);
      }
      HoldsPushed(less, rests, Tagged(gone.source, pulled), after);
    }
  }

  /** Taking the last item of one lane: the ends stay out, and only that item is gone. */
  lemma LaneTaken(lanes: seq<Lane>, i: nat, lo: bool)
    requires i < |lanes| && lanes[i].All() != [] && BacksOut(lanes) && (lo ==> FrontsOut(lanes))
    ensures
      var after, all := lanes[i := TakeLast(lanes[i])], lanes[i].All();
      BacksOut(after) && (lo ==> FrontsOut(after)) && Rests(after) == Rests(lanes)[i := all[..|all| - 1]]
  {
    TakeLastDrops(lanes[i]);
  }

  lemma StepBack(data: seq<Tagged>, lanes: seq<Lane>, lo: bool)
    requires Ready(data, lanes, lo, true) && data != []
    ensures data[|data| - 1].source < |lanes|
    ensures
      var top := data[|data| - 1];
      var i, less := top.source, data[..|data| - 1];
      var middle, after := lanes[i].middle, lanes[i := TakeLast(lanes[i])];
      && PoppedBack(Merged(Rests(lanes)), Some(top), Merged(Rests(after)))
      && (middle != [] ==> Ready(InsertTagged(Tagged(i, middle[|middle| - 1]), less), after, lo, true))
      && (middle == [] ==> Ready(less, after, lo, true))
  {
    hide Merged, StrictlySorted, SourcesSorted, InsertTagged, TaggedLess, HeapHolds;
    hide FrontsOut, TakeLast, Lane.All, Lane.Holds;
    var rests, top := Rests(lanes), data[|data| - 1];
    HeapMaxIsLast(data, lanes);
    HeldAt(data, lanes, top);
    HeapSorted(data, lanes, lo, true);
    var i := top.source;
    var lane, after := lanes[i], lanes[i := TakeLast(lanes[i])];
    MergePopBack(rests, i);
    SortedAt(rests, i);
    LaneTaken(lanes, i, lo);
    TakeLastHolds(lane);
    RemoveLast(data);
    var n := |lane.middle|;
    StepHeap(data, data[..|data| - 1], top, lanes, n > 0, if n > 0 then lane.middle[n - 1] else top.entry, after, rests);
  }

  /** Pulling one end out of a source into the heap leaves as much as before. */
  lemma PullFront(data: seq<Tagged>, lanes: seq<Lane>, i: nat, hi: bool)
    requires Ready(data, lanes, false, hi) && i < |lanes| && lanes[i].front.None? && lanes[i].middle != []
    ensures
      var lane := lanes[i];
      var after := lanes[i := Lane(Some(lane.middle[0]), lane.middle[1..], lane.back)];
      && Ready(InsertTagged(Tagged(i, lane.middle[0]), data), after, false, hi)
      && Rests(after) == Rests(lanes)
  {
    hide StrictlySorted, SourcesSorted;
    var lane, rests := lanes[i], Rests(lanes);
    var t, after := Tagged(i, lane.middle[0]), lanes[i := Lane(Some(lane.middle[0]), lane.middle[1..], lane.back)];
    assert after[i].All() == lane.All();
    assert Rests(after) == rests;
    assert t.entry in lane.middle;
    LaneMembers(lane);
    if lane.back.Some? {
      assert SourceSorted(lane.All()) by { assert SourcesSorted(rests) && rests[i] == lane.All(); SortedAt(rests, i); }
      BackAbove(lane, t.entry);
    }
    PullHeap(data, lanes, t, after);
  }

  lemma SortedAt(rests: seq<seq<Entry>>, i: nat)
    requires SourcesSorted(rests) && i < |rests|
    ensures SourceSorted(rests[i])
  {
  }

  lemma PullHeap(data: seq<Tagged>, lanes: seq<Lane>, t: Tagged, after: seq<Lane>)
    requires HeapHolds(data, lanes) && SourcesSorted(Rests(lanes))
    requires |after| == |lanes| && FromSources(t, Rests(lanes)) && !HeldBy(t, lanes)
    requires forall x :: HeldBy(x, after) <==> x == t || HeldBy(x, lanes)
    ensures HeapHolds(InsertTagged(t, data), after)
  {
    hide StrictlySorted, SourcesSorted;
    forall x | x in data
      ensures FromSources(x, Rests(lanes))
    {
      HeldIsLeft(x, lanes);
    }
    HoldsPushed(data, Rests(lanes), t, after);
  }

  lemma PullBack(data: seq<Tagged>, lanes: seq<Lane>, i: nat, lo: bool)
    requires Ready(data, lanes, lo, false) && i < |lanes| && lanes[i].back.None? && lanes[i].middle != []
    ensures
      var lane, n := lanes[i], |lanes[i].middle| - 1;
      var after := lanes[i := Lane(lane.front, lane.middle[..n], Some(lane.middle[n]))];
      && Ready(InsertTagged(Tagged(i, lane.middle[n]), data), after, lo, false)
      && Rests(after) == Rests(lanes)
  {
    hide StrictlySorted, SourcesSorted;
    var lane, rests, n := lanes[i], Rests(lanes), |lanes[i].middle| - 1;
    var t, after := Tagged(i, lane.middle[n]), lanes[i := Lane(lane.front, lane.middle[..n], Some(lane.middle[n]))];
    assert after[i].All() == lane.All();
    assert Rests(after) == rests;
    assert t.entry in lane.middle;
    LaneMembers(lane);
    if lane.front.Some? {
      assert SourceSorted(lane.All()) by { assert SourcesSorted(rests) && rests[i] == lane.All(); SortedAt(rests, i); }
      FrontBelow(lane, t.entry);
    }
    PullHeap(data, lanes, t, after);
  }

  /** Merges sorted sources from both ends; each end fills the heap on first use. */
  class Merger {
    var iterators: seq<seq<Entry>>
    const heap: MergeHeap
    var initializedLo: bool
    var initializedHi: bool
    ghost var lanes: seq<Lane>
    ghost const Repr: set<object>

    ghost predicate Valid()
      reads this, Repr
    {
      && Repr == {this, heap}
      && |lanes| == |iterators|
      && (forall i :: 0 <= i < |lanes| ==> lanes[i].middle == iterators[i])
      && Ready(heap.data, lanes, initializedLo, initializedHi)
      && (!initializedLo ==> forall i :: 0 <= i < |lanes| ==> lanes[i].front.None?)
      && (!initializedHi ==> forall i :: 0 <= i < |lanes| ==> lanes[i].back.None?)
    }

    /** The merge of what is left of the sources. */
    ghost function Contents(): seq<Tagged>
      requires Valid()
      reads this, Repr
    {
      Merged(Rests(lanes))
    }

    constructor (sources: seq<seq<Entry>>)
      requires SourcesSorted(sources)
      ensures Valid() && fresh(Repr)
      ensures Contents() == Merged(sources)
    {
      iterators := sources;
      heap := new MergeHeap();
      initializedLo, initializedHi := false, false;
      lanes := seq(|sources|, i requires 0 <= i < |sources| => Lane(None, sources[i], None));
      Repr := {this, heap};
      new;
      assert forall i :: 0 <= i < |sources| ==> lanes[i].All() == sources[i];
      assert Rests(lanes) == sources;
    }

    method InitializeLo()
      requires Valid() && !initializedLo
      modifies Repr
      ensures Valid() && initializedLo && initializedHi == old(initializedHi)
      ensures Rests(lanes) == old(Rests(lanes))
    {
      hide Merged, HeapHolds, SourcesSorted;
      var i := 0;
      while i < |iterators|
        invariant 0 <= i <= |iterators| == |lanes|
        invariant initializedHi == old(initializedHi)
        invariant forall k :: 0 <= k < |lanes| ==> lanes[k].middle == iterators[k]
        invariant Ready(heap.data, lanes, false, initializedHi)
        invariant forall k :: 0 <= k < i && lanes[k].middle != [] ==> lanes[k].front.Some?
        invariant forall k :: i <= k < |lanes| ==> lanes[k].front.None?
        invariant !initializedHi ==> forall k :: 0 <= k < |lanes| ==> lanes[k].back.None?
        invariant Rests(lanes) == old(Rests(lanes))
      {
        if iterators[i] != [] {
          var item := iterators[i][0];
          PullFront(heap.data, lanes, i, initializedHi);
          HeapSorted(heap.data, lanes, false, initializedHi);
          lanes := lanes[i := Lane(Some(item), lanes[i].middle[1..], lanes[i].back)];
          iterators := iterators[i := iterators[i][1..]];
          heap.Push(Tagged(i, item));
        }
        i := i + 1;
      }
      initializedLo := true;
    }

    method InitializeHi()
      requires Valid() && !initializedHi
      modifies Repr
      ensures Valid() && initializedHi && initializedLo == old(initializedLo)
      ensures Rests(lanes) == old(Rests(lanes))
    {
      hide Merged, HeapHolds, SourcesSorted;
      var i := 0;
      while i < |iterators|
        invariant 0 <= i <= |iterators| == |lanes|
        invariant initializedLo == old(initializedLo)
        invariant forall k :: 0 <= k < |lanes| ==> lanes[k].middle == iterators[k]
        invariant Ready(heap.data, lanes, initializedLo, false)
        invariant forall k :: 0 <= k < i && lanes[k].middle != [] ==> lanes[k].back.Some?
        invariant forall k :: i <= k < |lanes| ==> lanes[k].back.None?
        invariant !initializedLo ==> forall k :: 0 <= k < |lanes| ==> lanes[k].front.None?
        invariant Rests(lanes) == old(Rests(lanes))
      {
        var n := |iterators[i]| - 1;
        if n >= 0 {
          var item := iterators[i][n];
          PullBack(heap.data, lanes, i, initializedLo);
          HeapSorted(heap.data, lanes, initializedLo, false);
          lanes := lanes[i := Lane(lanes[i].front, lanes[i].middle[..n], Some(item))];
          iterators := iterators[i := iterators[i][..n]];
          heap.Push(Tagged(i, item));
        }
        i := i + 1;
      }
      initializedHi := true;
    }

    method Next() returns (r: Option<Tagged>)
      requires Valid()
      modifies Repr
      ensures Valid()
      ensures PoppedFront(old(Contents()), r, Contents())
    {
      hide Merged, HeapHolds, SourcesSorted, FrontsOut, BacksOut, StrictlySorted, InsertTagged, TaggedLess;
      if !initializedLo {
        InitializeLo();
      }
      if heap.data == [] {
        HeapMinIsFirst(heap.data, lanes);
        return None;
      }
      var top := heap.data[0].source;
      StepFront(heap.data, lanes, initializedHi);
      HeapSorted(heap.data, lanes, true, initializedHi);
      if iterators[top] != [] {
        var item := iterators[top][0];
        iterators := iterators[top := iterators[top][1..]];
        var replaced := heap.ReplaceMin(Tagged(top, item));
        r := Some(replaced);
      } else {
        r := heap.PopMin();
      }
      lanes := lanes[top := TakeFirst(lanes[top])];
    }

    method NextBack() returns (r: Option<Tagged>)
      requires Valid()
      modifies Repr
      ensures Valid()
      ensures PoppedBack(old(Contents()), r, Contents())
    {
      hide Merged, HeapHolds, SourcesSorted, FrontsOut, BacksOut, StrictlySorted, InsertTagged, TaggedLess;
      hide Rests, Lane.All, PoppedBack;
      if !initializedHi {
        InitializeHi();
      }
      if heap.data == [] {
        HeapMaxIsLast(heap.data, lanes);
        PopNothing<Tagged>();
        return None;
      }
      var top := heap.data[|heap.data| - 1].source;
      StepBack(heap.data, lanes, initializedLo);
      HeapSorted(heap.data, lanes, initializedLo, true);
      var n := |iterators[top]| - 1;
      if n >= 0 {
        var item := iterators[top][n];
        iterators := iterators[top := iterators[top][..n]];
        var replaced := heap.ReplaceMax(Tagged(top, item));
        r := Some(replaced);
      } else {
        r := heap.PopMax();
      }
      lanes := lanes[top := TakeLast(lanes[top])];
    }
  }
}
