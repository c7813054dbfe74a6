/** What the version-collapsing stages read: any double-ended stream of entries. */
module EntryStreams {
  import opened Core
  import opened Cursors
  import opened Mergers
  import opened MergeSpec
  import opened SeekingMergers

  method PullMerged(heap: Merger, forward: bool) returns (r: Option<Entry>)
    requires heap.Valid()
    modifies heap, heap.Repr
    ensures heap.Valid() && PoppedEnd(forward, old(Entries(heap.Contents())), r, Entries(heap.Contents()))
  {
    hide Merger.Valid, Merger.Contents;
    ghost var before := heap.Contents();
    var item;
    if forward {
      item := heap.Next();
    } else {
      item := heap.NextBack();
    }
    EntriesPop(forward, before, item, heap.Contents());
    r := if item.Some? then Some(item.value.entry) else None;
  }

  /** A stream that shrinks one window from both ends, the heap merge, or the
      two-tournament merger of the read path. */
  datatype EntryStream = Coherent(cursor: Cursor<Entry>) | Heaped(heap: Merger) | Merging(merger: SeekingMerger) {
    ghost function Repr(): set<object> {
      match this
      case Coherent(c) => {c}
      case Heaped(h) => {h} + h.Repr
      case Merging(m) => {m} + m.Repr
    }

    ghost predicate Valid()
      reads Repr()
    {
      match this
      case Coherent(_) => true
      case Heaped(h) => h.Valid()
      case Merging(m) => m.Valid()
    }

    /** The entries still to be handed out, in order. */
    ghost function Contents(): seq<Entry>
      requires Valid()
      reads Repr()
    {
      match this
      case Coherent(c) => c.rest
      case Heaped(h) => Entries(h.Contents())
      case Merging(m) => m.Contents()
    }

    /** A deque whatever the order of the calls. */
    predicate Steady() {
      !Merging?
    }

    /** Pulling in this direction is right. */
    ghost predicate Fit(forward: bool)
      requires Valid()
      reads Repr()
    {
      Merging? ==> merger.Fit(forward)
    }

    /** And it has not been done yet, if that matters. */
    ghost predicate Untouched(forward: bool)
      requires Valid()
      reads Repr()
    {
      Merging? ==> merger.Untouched(forward)
    }

    method PullEntry(forward: bool) returns (r: Option<Entry>)
      requires Valid() && Fit(forward)
      modifies Repr()
      ensures Valid() && Fit(forward) && (old(Untouched(!forward)) ==> Untouched(!forward))
      ensures PoppedEnd(forward, old(Contents()), r, Contents())
    {
      hide Merger.Valid, Merger.Contents;
      hide SeekingMerger.Valid, SeekingMerger.Contents, SeekingMerger.Fit, SeekingMerger.Untouched;
      match this {
        case Coherent(c) =>
          if forward {
            r := c.Next();
          } else {
            r := c.NextBack();
          }
        case Heaped(h) =>
          r := PullMerged(h, forward);
        case Merging(m) =>
          r := m.PullEntry(forward);
      }
    }

    /** Where the stream can be repositioned to. The heap merge has no reposition. */
    ghost predicate CanReseek(positioned: seq<seq<Entry>>) {
      match this
      case Coherent(_) => |positioned| == 1
      case Heaped(_) => false
      case Merging(m) => |positioned| == m.nSources && SourcesSorted(positioned)
    }

    /** What it holds then. */
    ghost function Positioned(positioned: seq<seq<Entry>>): seq<Entry>
      requires CanReseek(positioned)
    {
      if Coherent? then positioned[0] else Entries(Merged(positioned))
    }

    method Reseek(positioned: seq<seq<Entry>>)
      requires Valid() && CanReseek(positioned)
      modifies Repr()
      ensures Valid() && Untouched(true) && Untouched(false) && Contents() == Positioned(positioned)
    {
      hide SeekingMerger.Valid, SeekingMerger.Contents, SeekingMerger.Fit, SeekingMerger.Untouched, Merged, SourcesSorted;
      if Coherent? {
        cursor.Reseek(positioned[0]);
      } else {
        merger.Reseek(positioned);
      }
    }
  }
}
