/** src/range.rs: the stack of stages a scan is read through, from both ends. */
module TreeIters {
  import opened Core
  import opened RtFilter
  import opened SeekingRuns
  import opened TombstoneSkips

  /** The range-tombstone filter is left out when no tombstone is visible. */
  datatype TreeIter = Unfiltered(skip: TombstoneSkip) | Filtered(filter: RangeTombstoneFilter) {
    ghost function Repr(): set<object> {
      if Unfiltered? then skip.Repr else filter.Repr
    }

    ghost predicate Valid()
      reads if Unfiltered? then {skip as object} + skip.Repr else {filter as object} + filter.Repr
    {
      if Unfiltered? then skip.Valid() else filter.Valid()
    }

    ghost function Contents(): seq<Item>
      requires Valid()
      reads if Unfiltered? then {skip as object} + skip.Repr else {filter as object} + filter.Repr
    {
      if Unfiltered? then skip.Contents() else filter.Contents()
    }

    /** A deque whatever the order of the calls. */
    predicate Steady() {
      if Unfiltered? then skip.Steady() else filter.Steady()
    }

    /** Pulling in this direction is right. */
    ghost predicate Fit(forward: bool)
      requires Valid()
      reads if Unfiltered? then {skip as object} + skip.Repr else {filter as object} + filter.Repr
    {
      if Unfiltered? then skip.Fit(forward) else filter.Fit(forward)
    }

    /** And it has not been done yet. */
    ghost predicate Untouched(forward: bool)
      requires Valid()
      reads if Unfiltered? then {skip as object} + skip.Repr else {filter as object} + filter.Repr
    {
      if Unfiltered? then skip.Untouched(forward) else filter.Untouched(forward)
    }

    method Next() returns (r: Option<Item>)
      requires Valid() && Fit(true)
      modifies Repr()
      ensures Valid() && Fit(true) && (old(Untouched(false)) ==> Untouched(false))
      ensures PoppedFront(old(Contents()), r, Contents())
    {
      hide TombstoneSkip.Valid, TombstoneSkip.Contents, TombstoneSkip.Fit, TombstoneSkip.Untouched, PoppedFront;
      hide RangeTombstoneFilter.Valid, RangeTombstoneFilter.Contents, RangeTombstoneFilter.Fit, RangeTombstoneFilter.Untouched;
      match this
      case Unfiltered(s) => r := s.Next();
      case Filtered(f) => r := f.Next();
    }

    method NextBack() returns (r: Option<Item>)
      requires Valid() && Fit(false)
      modifies Repr()
      ensures Valid() && Fit(false) && (old(Untouched(true)) ==> Untouched(true))
      ensures PoppedBack(old(Contents()), r, Contents())
    {
      hide TombstoneSkip.Valid, TombstoneSkip.Contents, TombstoneSkip.Fit, TombstoneSkip.Untouched, PoppedBack;
      hide RangeTombstoneFilter.Valid, RangeTombstoneFilter.Contents, RangeTombstoneFilter.Fit, RangeTombstoneFilter.Untouched;
      match this
      case Unfiltered(s) => r := s.NextBack();
      case Filtered(f) => r := f.NextBack();
    }

    /** The stream below takes calls in any order, or the calls to come change direction
        at most once, and not into a direction that was used before. */
    ghost predicate Ready(calls: seq<bool>)
      requires Valid()
      reads if Unfiltered? then {skip as object} + skip.Repr else {filter as object} + filter.Repr
    {
      || calls == [] || Steady()
      || (Fit(calls[0]) && (Turns(calls) == 0 || (Turns(calls) == 1 && Untouched(!calls[0]))))
    }

    lemma SteadyIsFit(forward: bool)
      requires Valid() && Steady()
      ensures Fit(forward)
    {
    }

    lemma UntouchedIsFit(forward: bool)
      requires Valid() && Untouched(forward)
      ensures Fit(forward)
    {
    }

    method Answer(forward: bool) returns (item: Option<Item>)
      requires Valid() && Fit(forward)
      modifies Repr()
      ensures Valid() && Fit(forward) && (old(Untouched(!forward)) ==> Untouched(!forward))
      ensures PoppedEnd(forward, old(Contents()), item, Contents())
    {
      hide TreeIter.Valid, TreeIter.Contents, TreeIter.Fit, TreeIter.Untouched, PoppedFront, PoppedBack;
      if forward {
        item := Next();
      } else {
        item := NextBack();
      }
    }

    /** Every list of calls the stream below is ready for is answered as by a deque. */
    method Interleave(calls: seq<bool>) returns (out: seq<Option<Item>>)
      requires Valid() && Ready(calls)
      modifies Repr()
      ensures Valid() && out == Served(old(Contents()), calls)
    {
      hide TreeIter.Valid, TreeIter.Contents, TreeIter.Fit, TreeIter.Untouched, TreeIter.Steady, PoppedFront, PoppedBack;
      hide Turns, Served;
      ghost var all := Contents();
      var rest := calls;
      out := [];
      while rest != []
        invariant Valid() && Ready(rest)
        invariant out + Served(Contents(), rest) == Served(all, calls)
      {
        ghost var before := Contents();
        TurnsLater(rest);
        if Steady() {
          SteadyIsFit(rest[0]);
        }
        var item := Answer(rest[0]);
        if Untouched(!rest[0]) {
          UntouchedIsFit(!rest[0]);
        }
        ServedOne(before, item, Contents(), rest);
        out := out + [item];
        rest := rest[1..];
      }
      ServedNothing(Contents());
    }
  }

  lemma TurnsLater(calls: seq<bool>)
    requires calls != []
    ensures calls[1..] != [] ==> Turns(calls) == Turns(calls[1..]) + if calls[0] != calls[1..][0] then 1 else 0
  {
  }
}
