/** src/range.rs: dropping the tombstones that version collapsing leaves behind. */
module TombstoneSkips {
  import opened Core
  import opened EntryStreams
  import opened Mvcc

  predicate NotTombstone(item: Item) {
    item.Row? ==> !item.entry.kind.IsTombstone()
  }

  lemma {:induction false} FilterFront<T>(s: seq<T>, keep: T -> bool)
    requires s != []
    ensures Filter(s, keep) == (if keep(s[0]) then [s[0]] else []) + Filter(s[1..], keep)
  {
  }

  lemma {:induction false} FilterBack<T>(s: seq<T>, keep: T -> bool)
    requires s != []
    ensures Filter(s, keep) == Filter(s[..|s| - 1], keep) + if keep(s[|s| - 1]) then [s[|s| - 1]] else []
  {
    assert s == s[..|s| - 1] + [s[|s| - 1]];
    FilterConcat(s[..|s| - 1], [s[|s| - 1]], keep);
  }

  lemma FilteredFront<T>(before: seq<T>, r: Option<T>, after: seq<T>, keep: T -> bool)
    requires PoppedFront(before, r, after)
    ensures r.None? || keep(r.value) ==> PoppedFront(Filter(before, keep), r, Filter(after, keep))
    ensures r.Some? && !keep(r.value) ==> Filter(before, keep) == Filter(after, keep)
  {
    if before != [] {
      FilterFront(before, keep);
    }
  }

  lemma FilteredBack<T>(before: seq<T>, r: Option<T>, after: seq<T>, keep: T -> bool)
    requires PoppedBack(before, r, after)
    ensures r.None? || keep(r.value) ==> PoppedBack(Filter(before, keep), r, Filter(after, keep))
    ensures r.Some? && !keep(r.value) ==> Filter(before, keep) == Filter(after, keep)
  {
    if before != [] {
      FilterBack(before, keep);
    }
  }

  class TombstoneSkip {
    const inner: MvccStream
    ghost const Repr: set<object>

    ghost predicate Valid()
      reads this, Repr
    {
      && this in Repr && inner in Repr
      && Repr == {this} + inner.Repr
      && this !in inner.Repr
      && inner.Valid()
    }

    ghost function Contents(): seq<Item>
      requires Valid()
      reads this, Repr
    {
      Filter(inner.Contents(), NotTombstone)
    }

    /** A deque whatever the order of the calls. */
    predicate Steady() {
      inner.Steady()
    }

    /** Pulling in this direction is right. */
    ghost predicate Fit(forward: bool)
      requires Valid()
      reads this, Repr
    {
      inner.Fit(forward)
    }

    /** And it has not been done yet. */
    ghost predicate Untouched(forward: bool)
      requires Valid()
      reads this, Repr
    {
      inner.Untouched(forward)
    }

    constructor (stream: MvccStream)
      requires stream.Valid()
      ensures Valid() && inner == stream && Repr == {this} + stream.Repr
    {
      inner := stream;
      Repr := {this} + stream.Repr;
    }

    method Next() returns (r: Option<Item>)
      requires Valid() && Fit(true)
      modifies Repr
      ensures Valid() && Fit(true) && (old(Untouched(false)) ==> Untouched(false))
      ensures PoppedFront(old(Contents()), r, Contents())
    {
      hide Filter, PoppedFront, MvccStream.Contents, MvccStream.Valid, MvccStream.Fit, MvccStream.Untouched;
      ghost var s := Contents();
      while true
        invariant Valid() && Fit(true) && (old(Untouched(false)) ==> Untouched(false))
        invariant Contents() == s
        decreases |inner.Contents()|
      {
        ghost var before := inner.Contents();
        r := inner.Next();
        FrontShrinks(before, r, inner.Contents());
        FilteredFront(before, r, inner.Contents(), NotTombstone);
        if r.None? || NotTombstone(r.value) {
          return;
        }
      }
    }

    method NextBack() returns (r: Option<Item>)
      requires Valid() && Fit(false)
      modifies Repr
      ensures Valid() && Fit(false) && (old(Untouched(true)) ==> Untouched(true))
      ensures PoppedBack(old(Contents()), r, Contents())
    {
      hide Filter, PoppedBack, MvccStream.Contents, MvccStream.Valid, MvccStream.Fit, MvccStream.Untouched;
      ghost var s := Contents();
      while true
        invariant Valid() && Fit(false) && (old(Untouched(true)) ==> Untouched(true))
        invariant Contents() == s
        decreases |inner.Contents()|
      {
        ghost var before := inner.Contents();
        r := inner.NextBack();
        BackShrinks(before, r, inner.Contents());
        FilteredBack(before, r, inner.Contents(), NotTombstone);
        if r.None? || NotTombstone(r.value) {
          return;
        }
      }
    }

    method Reseek(positioned: seq<seq<Entry>>)
      requires Valid() && inner.inner.iter.CanReseek(positioned)
      modifies Repr
      ensures Valid() && Untouched(true) && Untouched(false)
      ensures inner.inner.Contents() == inner.inner.iter.Positioned(positioned)
    {
      hide EntryStream.CanReseek, EntryStream.Positioned, MvccStream.Contents;
      inner.Reseek(positioned);
    }
  }

  lemma FrontShrinks<T>(before: seq<T>, r: Option<T>, after: seq<T>)
    requires PoppedFront(before, r, after)
    ensures r.Some? ==> |after| < |before|
  {
  }

  lemma BackShrinks<T>(before: seq<T>, r: Option<T>, after: seq<T>)
    requires PoppedBack(before, r, after)
    ensures r.Some? ==> |after| < |before|
  {
  }
}
