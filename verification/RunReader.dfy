/** src/run_reader.rs: reading a run of disjoint tables from both ends. */
module RunReaders {
  import opened Core
  import opened Cursors
  import opened Sorting
  import opened Tables

  /** What a run holds within a range, in tables `i..j`. */
  ghost function InRangeEntries(run: seq<Table>, i: nat, j: nat, lo: Bound<Key>, hi: Bound<Key>): seq<Entry>
    requires i <= j <= |run|
    decreases j - i
  {
    if i == j then []
    else Filter(run[i].entries, InBounds(lo, hi)) + InRangeEntries(run, i + 1, j, lo, hi)
  }

  ghost predicate WhollyIn(t: Table, lo: Bound<Key>, hi: Bound<Key>) {
    forall e :: e in t.entries ==> InRange(e.key, lo, hi)
  }

  ghost predicate WhollyOut(t: Table, lo: Bound<Key>, hi: Bound<Key>) {
    forall e :: e in t.entries ==> !InRange(e.key, lo, hi)
  }

  /** The first table that reaches above the lower bound. */
  method FirstAbove(run: seq<Table>, lo: Bound<Key>) returns (first: nat)
    requires ValidRun(run)
    ensures first <= |run|
    ensures forall i :: 0 <= i < |run| ==> (AboveLower(run[i].max, lo) <==> first <= i)
  {
    first := 0;
    match lo {
      case Unbounded =>
      case Included(k) => first := PartitionPoint(run, (t: Table) => t.max < k);
      case Excluded(k) => first := PartitionPoint(run, (t: Table) => t.max <= k);
    }
  }

  /** The end of the tables that start below the upper bound. */
  method EndBelow(run: seq<Table>, hi: Bound<Key>) returns (end: nat)
    requires ValidRun(run)
    ensures end <= |run|
    ensures forall i :: 0 <= i < |run| ==> (BelowUpper(run[i].min, hi) <==> i < end)
  {
    end := |run|;
    match hi {
      case Unbounded =>
      case Included(k) => end := PartitionPoint(run, (t: Table) => t.min <= k);
      case Excluded(k) => end := PartitionPoint(run, (t: Table) => t.min < k);
    }
  }

  /** Tables outside the window `at` hold nothing of the range, and tables strictly
      inside hold nothing else. */
  ghost predicate Overlapped(run: seq<Table>, at: Option<(nat, nat)>, lo: Bound<Key>, hi: Bound<Key>) {
    if at.None? then forall i :: 0 <= i < |run| ==> WhollyOut(run[i], lo, hi)
    else
      && at.value.0 <= at.value.1 < |run|
      && (forall i :: 0 <= i < |run| && !(at.value.0 <= i <= at.value.1) ==> WhollyOut(run[i], lo, hi))
      && (forall i :: at.value.0 < i < at.value.1 ==> WhollyIn(run[i], lo, hi))
  }

  /** src/version/run.rs: the tables that overlap a range. Tables outside the
      window hold nothing of it; tables strictly inside hold nothing else. */
  method RangeOverlapIndexes(run: seq<Table>, lo: Bound<Key>, hi: Bound<Key>) returns (r: Option<(nat, nat)>)
    requires ValidRun(run)
    ensures Overlapped(run, r, lo, hi)
  {
    hide WhollyIn, WhollyOut;
    var first := FirstAbove(run, lo);
    if first >= |run| {
      OverlapWindow(run, first, |run|, lo, hi);
      return None;
    }
    var n := EndBelow(run[first..], hi);
    var end := first + n;
    assert forall i :: first <= i < |run| ==> run[i] == run[first..][i - first];
    OverlapWindow(run, first, end, lo, hi);
    if end == 0 || first > end - 1 {
      return None;
    }
    r := Some((first, end - 1));
  }

  lemma OverlapWindow(run: seq<Table>, first: nat, end: nat, lo: Bound<Key>, hi: Bound<Key>)
    requires ValidRun(run) && first <= end <= |run|
    requires forall i :: 0 <= i < |run| ==> (AboveLower(run[i].max, lo) <==> first <= i)
    requires forall i :: first <= i < |run| ==> (BelowUpper(run[i].min, hi) <==> i < end)
    ensures forall i :: 0 <= i < |run| && !(first <= i < end) ==> WhollyOut(run[i], lo, hi)
    ensures forall i :: first < i < end - 1 ==> WhollyIn(run[i], lo, hi)
  {
    forall i | 0 <= i < |run| && !(first <= i < end)
      ensures WhollyOut(run[i], lo, hi)
    {
      assert ValidTable(run[i]);
    }
    forall i | first < i < end - 1
      ensures WhollyIn(run[i], lo, hi)
    {
      assert ValidTable(run[i]) && ValidTable(run[first]);
      assert run[first].max < run[i].min && run[i].max < run[i + 1].min;
    }
  }

  // --- the window of a reader, on values ---

  /** One end of the window: its table not opened yet, being read, or spent. */
  datatype Part = Unopened | Open(rest: seq<Entry>) | Spent

  /** What is left to read: a run, its range, the window and its two ends. */
  datatype Window = Window(run: seq<Table>, lo: nat, hi: nat, front: Part, back: Part,
                           rangeLo: Bound<Key>, rangeHi: Bound<Key>)
  {
    /** While an end is in use, its table exists; the ends never share a table;
        and an end is only spent once no table is left between the two. */
    ghost predicate Valid() {
      && (!front.Spent? ==> lo < |run|)
      && (!back.Spent? ==> 1 <= hi < |run|)
      && (!front.Spent? && !back.Spent? ==> lo < hi)
      && (front.Spent? != back.Spent? ==> lo == hi)
      && (!front.Spent? && !back.Spent? ==> forall i :: lo < i < hi ==> WhollyIn(run[i], rangeLo, rangeHi))
    }

    ghost function Of(part: Part, at: nat): seq<Entry>
      requires !part.Spent? ==> at < |run|
    {
      match part
      case Unopened => Filter(run[at].entries, InBounds(rangeLo, rangeHi))
      case Open(rest) => rest
      case Spent => []
    }

    ghost function Middle(): seq<Entry>
      requires Valid()
    {
      if front.Spent? || back.Spent? then [] else InRangeEntries(run, lo + 1, hi, rangeLo, rangeHi)
    }

    ghost function Remaining(): seq<Entry>
      requires Valid()
    {
      Of(front, lo) + Middle() + Of(back, hi)
    }

    /** The front table is read out: on to the next one, whole, if it lies inside. */
    ghost function AdvanceFront(): Window {
      var nextPart := if lo + 1 < hi && lo + 1 < |run| then Open(run[lo + 1].entries) else Spent;
      this.(lo := lo + 1, front := nextPart)
    }

    ghost function AdvanceBack(): Window
      requires hi > 0
    {
      var nextPart := if lo < hi - 1 < |run| then Open(run[hi - 1].entries) else Spent;
      this.(hi := hi - 1, back := nextPart)
    }
  }

  lemma {:induction false} InRangeEntriesBack(run: seq<Table>, i: nat, j: nat, lo: Bound<Key>, hi: Bound<Key>)
    requires i < j <= |run|
    ensures InRangeEntries(run, i, j, lo, hi) ==
            InRangeEntries(run, i, j - 1, lo, hi) + Filter(run[j - 1].entries, InBounds(lo, hi))
    decreases j - i
  {
    hide Filter, InBounds;
    if i < j - 1 {
      InRangeEntriesBack(run, i + 1, j, lo, hi);
    }
  }

  lemma {:induction false} InRangeEntriesNone(run: seq<Table>, i: nat, j: nat, lo: Bound<Key>, hi: Bound<Key>)
    requires i <= j <= |run| && forall k :: i <= k < j ==> WhollyOut(run[k], lo, hi)
    ensures InRangeEntries(run, i, j, lo, hi) == []
    decreases j - i
  {
    if i < j {
      FilterNone(run[i].entries, InBounds(lo, hi));
      InRangeEntriesNone(run, i + 1, j, lo, hi);
    }
  }

  lemma {:induction false} InRangeEntriesSplit(run: seq<Table>, i: nat, k: nat, j: nat, lo: Bound<Key>, hi: Bound<Key>)
    requires i <= k <= j <= |run|
    ensures InRangeEntries(run, i, j, lo, hi) == InRangeEntries(run, i, k, lo, hi) + InRangeEntries(run, k, j, lo, hi)
    decreases k - i
  {
    if i < k {
      InRangeEntriesSplit(run, i + 1, k, j, lo, hi);
    }
  }

  /** Reading tables one by one is filtering the run as a whole. */
  lemma {:induction false} InRangeEntriesFilter(run: seq<Table>, i: nat, j: nat, lo: Bound<Key>, hi: Bound<Key>)
    requires i <= j <= |run|
    ensures InRangeEntries(run, i, j, lo, hi) == Filter(RunEntries(run, i, j), InBounds(lo, hi))
    decreases j - i
  {
    if i < j {
      InRangeEntriesFilter(run, i + 1, j, lo, hi);
      FilterConcat(run[i].entries, RunEntries(run, i + 1, j), InBounds(lo, hi));
    }
  }

  lemma AdvanceFrontKeeps(w: Window)
    requires w.Valid() && w.front == Open([])
    ensures w.AdvanceFront().Valid() && w.AdvanceFront().Remaining() == w.Remaining()
    ensures w.AdvanceFront().front.Open? <==> w.lo + 1 < w.hi
  {
    hide WhollyIn, Filter;
    if w.lo + 1 < w.hi {
      var t := w.run[w.lo + 1];
      WholeTable(t, w.rangeLo, w.rangeHi);
      assert InRangeEntries(w.run, w.lo + 1, w.hi, w.rangeLo, w.rangeHi)
          == t.entries + InRangeEntries(w.run, w.lo + 2, w.hi, w.rangeLo, w.rangeHi);
    }
  }

  lemma AdvanceBackKeeps(w: Window)
    requires w.Valid() && w.back == Open([])
    ensures w.AdvanceBack().Valid() && w.AdvanceBack().Remaining() == w.Remaining()
    ensures w.AdvanceBack().back.Open? <==> w.lo < w.hi - 1
  {
    hide WhollyIn, Filter, InRangeEntries;
    if w.lo < w.hi - 1 {
      var t := w.run[w.hi - 1];
      WholeTable(t, w.rangeLo, w.rangeHi);
      InRangeEntriesBack(w.run, w.lo + 1, w.hi, w.rangeLo, w.rangeHi);
      if w.front.Spent? {
      } else {
        Regroup(w.Of(w.front, w.lo), w.AdvanceBack().Middle(), t.entries);
      }
    } else if w.lo + 1 == w.hi {
      NoTables(w.run, w.hi, w.rangeLo, w.rangeHi);
    }
  }

  lemma Regroup(a: seq<Entry>, b: seq<Entry>, c: seq<Entry>)
    ensures a + (b + c) + [] == a + b + c
  {
  }

  lemma FirstTable(run: seq<Table>, i: nat, j: nat, lo: Bound<Key>, hi: Bound<Key>)
    requires i < j <= |run|
    ensures InRangeEntries(run, i, j, lo, hi) ==
            Filter(run[i].entries, InBounds(lo, hi)) + InRangeEntries(run, i + 1, j, lo, hi)
  {
  }

  lemma NoTables(run: seq<Table>, i: nat, lo: Bound<Key>, hi: Bound<Key>)
    requires i <= |run|
    ensures InRangeEntries(run, i, i, lo, hi) == []
  {
  }

  lemma WholeTable(t: Table, lo: Bound<Key>, hi: Bound<Key>)
    requires WhollyIn(t, lo, hi)
    ensures Filter(t.entries, InBounds(lo, hi)) == t.entries
  {
    FilterAll(t.entries, InBounds(lo, hi));
  }

  /** Taking from the front end takes the first of what is left; once that end is
      spent, all that is left is at the back end. */
  lemma TakeFront(w: Window)
    requires w.Valid()
    ensures w.front.Open? && w.front.rest != [] ==>
      PoppedFront(w.Remaining(), Some(w.front.rest[0]), w.(front := Open(w.front.rest[1..])).Remaining())
    ensures w.front.Spent? ==> w.Remaining() == w.Of(w.back, w.hi)
  {
    hide Filter;
  }

  lemma TakeBack(w: Window)
    requires w.Valid()
    ensures w.back.Open? && w.back.rest != [] ==>
      var last := |w.back.rest| - 1;
      PoppedBack(w.Remaining(), Some(w.back.rest[last]), w.(back := Open(w.back.rest[..last])).Remaining())
    ensures w.back.Spent? ==> w.Remaining() == w.Of(w.front, w.lo)
  {
    hide Filter;
    if w.back.Open? && w.back.rest != [] {
      var last := |w.back.rest| - 1;
      var before := w.Of(w.front, w.lo) + w.Middle();
      assert w.Remaining() == before + w.back.rest[..last] + [w.back.rest[last]];
      PopLast(before + w.back.rest[..last], w.back.rest[last]);
    }
  }

  lemma OutsideWindow(run: seq<Table>, l: nat, h: nat, lo: Bound<Key>, hi: Bound<Key>)
    requires l <= h < |run|
    requires forall i :: 0 <= i < |run| && !(l <= i <= h) ==> WhollyOut(run[i], lo, hi)
    ensures InRangeEntries(run, 0, |run|, lo, hi) == InRangeEntries(run, l, h + 1, lo, hi)
  {
    hide WhollyOut;
    InRangeEntriesSplit(run, 0, l, |run|, lo, hi);
    InRangeEntriesSplit(run, l, h + 1, |run|, lo, hi);
    InRangeEntriesNone(run, 0, l, lo, hi);
    InRangeEntriesNone(run, h + 1, |run|, lo, hi);
  }

  /** The window of a reader that has not read anything. */
  ghost function Fresh(run: seq<Table>, at: Option<(nat, nat)>, lo: Bound<Key>, hi: Bound<Key>): Window {
    match at
    case None => Window(run, 0, 0, Spent, Spent, lo, hi)
    case Some((l, h)) => Window(run, l, h, Unopened, if l >= h then Spent else Unopened, lo, hi)
  }

  lemma UnopenedWindow(run: seq<Table>, l: nat, h: nat, lo: Bound<Key>, hi: Bound<Key>)
    requires l <= h < |run| && forall i :: l < i < h ==> WhollyIn(run[i], lo, hi)
    ensures Fresh(run, Some((l, h)), lo, hi).Valid()
    ensures Fresh(run, Some((l, h)), lo, hi).Remaining() == InRangeEntries(run, l, h + 1, lo, hi)
  {
    hide WhollyIn, Filter, InRangeEntries;
    NoTables(run, l + 1, lo, hi);
    FirstTable(run, l, h + 1, lo, hi);
    if l < h {
      InRangeEntriesBack(run, l + 1, h + 1, lo, hi);
      var a, c := Filter(run[l].entries, InBounds(lo, hi)), Filter(run[h].entries, InBounds(lo, hi));
      Regroup(a, InRangeEntries(run, l + 1, h, lo, hi), c);
    }
  }

  /** A fresh window over the overlapping tables holds everything in range. */
  lemma FreshWindow(run: seq<Table>, at: Option<(nat, nat)>, lo: Bound<Key>, hi: Bound<Key>)
    requires Overlapped(run, at, lo, hi)
    ensures Fresh(run, at, lo, hi).Valid()
    ensures Fresh(run, at, lo, hi).Remaining() == Filter(RunEntries(run, 0, |run|), InBounds(lo, hi))
  {
    hide WhollyIn, WhollyOut, Filter, InRangeEntries, Window.Remaining;
    InRangeEntriesFilter(run, 0, |run|, lo, hi);
    match at
    case None =>
      InRangeEntriesNone(run, 0, |run|, lo, hi);
      TakeFront(Fresh(run, at, lo, hi));
    case Some((l, h)) =>
      OutsideWindow(run, l, h, lo, hi);
      UnopenedWindow(run, l, h, lo, hi);
  }

  class RunReader {
    const run: seq<Table>
    var rangeLo: Bound<Key>
    var rangeHi: Bound<Key>
    var lo: nat
    var hi: nat
    var loReader: Cursor?<Entry>
    var hiReader: Cursor?<Entry>
    var loInitialized: bool
    var hiInitialized: bool

    ghost function Abstract(): Window
      reads this, loReader, hiReader
    {
      Window(run, lo, hi,
        if !loInitialized then Unopened else if loReader != null then Open(loReader.rest) else Spent,
        if !hiInitialized then Unopened else if hiReader != null then Open(hiReader.rest) else Spent,
        rangeLo, rangeHi)
    }

    ghost predicate Valid()
      reads this, loReader, hiReader
    {
      && ValidRun(run)
      && (!loInitialized ==> loReader == null)
      && (!hiInitialized ==> hiReader == null)
      && (loReader != null ==> loReader != hiReader)
      && Abstract().Valid()
    }

    ghost function Contents(): seq<Entry>
      requires Valid()
      reads this, loReader, hiReader
    {
      Abstract().Remaining()
    }

    /** A reader over the overlapping tables of `run`. */
    constructor Culled(run: seq<Table>, rangeLo: Bound<Key>, rangeHi: Bound<Key>, l: nat, h: nat)
      requires ValidRun(run) && Overlapped(run, Some((l, h)), rangeLo, rangeHi)
      ensures Valid() && this.run == run
      ensures Contents() == Filter(RunEntries(run, 0, |run|), InBounds(rangeLo, rangeHi))
    {
      this.run, this.rangeLo, this.rangeHi := run, rangeLo, rangeHi;
      loReader, hiReader := null, null;
      lo, hi, loInitialized, hiInitialized := l, h, false, l >= h;
      FreshWindow(run, Some((l, h)), rangeLo, rangeHi);
      new;
      assert Abstract() == Fresh(run, Some((l, h)), rangeLo, rangeHi);
    }

    /** Repositions to another range, from any state. */
    method Reseek(rangeLo: Bound<Key>, rangeHi: Bound<Key>)
      requires Valid()
      modifies this
      ensures Valid()
      ensures Contents() == Filter(RunEntries(run, 0, |run|), InBounds(rangeLo, rangeHi))
    {
      hide ValidRun, WhollyIn, WhollyOut, Window.Remaining, Filter;
      this.rangeLo, this.rangeHi := rangeLo, rangeHi;
      loReader, hiReader := null, null;
      var at := RangeOverlapIndexes(run, rangeLo, rangeHi);
      match at {
        case None => lo, hi, loInitialized, hiInitialized := 0, 0, true, true;
        case Some((l, h)) => lo, hi, loInitialized, hiInitialized := l, h, false, l >= h;
      }
      FreshWindow(run, at, rangeLo, rangeHi);
      assert Abstract() == Fresh(run, at, rangeLo, rangeHi);
    }

    method EnsureLoInitialized()
      requires Valid()
      modifies this
      ensures Valid() && Contents() == old(Contents()) && loInitialized
      ensures hiReader == old(hiReader) && hiInitialized == old(hiInitialized) && hi == old(hi) && lo == old(lo)
      ensures old(loInitialized) ==> loReader == old(loReader)
      ensures !old(loInitialized) ==> loReader != null && fresh(loReader)
    {
      hide ValidRun, WhollyIn, Filter;
      if !loInitialized {
        loReader := new Cursor(Filter(run[lo].entries, InBounds(rangeLo, rangeHi)));
        loInitialized := true;
      }
    }

    method EnsureHiInitialized()
      requires Valid()
      modifies this
      ensures Valid() && Contents() == old(Contents()) && hiInitialized
      ensures loReader == old(loReader) && loInitialized == old(loInitialized) && hi == old(hi) && lo == old(lo)
      ensures old(hiInitialized) ==> hiReader == old(hiReader)
      ensures !old(hiInitialized) ==> hiReader != null && fresh(hiReader)
    {
      hide ValidRun, WhollyIn, Filter;
      if !hiInitialized {
        hiReader := new Cursor(Filter(run[hi].entries, InBounds(rangeLo, rangeHi)));
        hiInitialized := true;
      }
    }

    /** The front table is read out. The next one is opened whole, and only if it
        lies strictly inside the window. */
    method AdvanceLo()
      requires Valid() && loReader != null && loReader.rest == []
      modifies this
      ensures Valid() && Contents() == old(Contents())
      ensures lo == old(lo) + 1 && loInitialized && hiReader == old(hiReader)
      ensures loReader != null ==> fresh(loReader)
    {
      hide ValidRun, WhollyIn, Window.Remaining;
      ghost var w := Abstract();
      AdvanceFrontKeeps(w);
      loReader := null;
      lo := lo + 1;
      if lo < hi {
        loReader := new Cursor(run[lo].entries);
      }
      assert Abstract() == w.AdvanceFront();
    }

    method AdvanceHi()
      requires Valid() && hiReader != null && hiReader.rest == []
      modifies this
      ensures Valid() && Contents() == old(Contents())
      ensures hi == old(hi) - 1 && hiInitialized && loReader == old(loReader)
      ensures hiReader != null ==> fresh(hiReader)
    {
      hide ValidRun, WhollyIn, Window.Remaining;
      ghost var w := Abstract();
      AdvanceBackKeeps(w);
      hiReader := null;
      hi := hi - 1;
      if lo < hi {
        hiReader := new Cursor(run[hi].entries);
      }
      assert Abstract() == w.AdvanceBack();
    }

    method Next() returns (r: Option<Entry>)
      requires Valid()
      modifies this, loReader, hiReader
      ensures Valid()
      ensures PoppedFront(old(Contents()), r, Contents())
    {
      hide ValidRun, WhollyIn, Window.Remaining;
      EnsureLoInitialized();
      while loReader != null
        invariant Valid() && loInitialized && Contents() == old(Contents())
        invariant loReader != null ==> loReader == old(loReader) || fresh(loReader)
        invariant hiReader == old(hiReader)
        decreases |run| - lo
      {
        ghost var w := Abstract();
        TakeFront(w);
        r := loReader.Next();
        if r.Some? {
          assert Abstract() == w.(front := Open(w.front.rest[1..]));
          return;
        }
        AdvanceLo();
      }
      EnsureHiInitialized();
      TakeFront(Abstract());
      if hiReader != null {
        r := hiReader.Next();
      } else {
        r := None;
      }
      TakeFront(Abstract());
    }

    method NextBack() returns (r: Option<Entry>)
      requires Valid()
      modifies this, loReader, hiReader
      ensures Valid()
      ensures PoppedBack(old(Contents()), r, Contents())
    {
      hide ValidRun, WhollyIn, Window.Remaining;
      EnsureHiInitialized();
      while hiReader != null
        invariant Valid() && hiInitialized && Contents() == old(Contents())
        invariant hiReader != null ==> hiReader == old(hiReader) || fresh(hiReader)
        invariant loReader == old(loReader)
        decreases hi
      {
        ghost var w := Abstract();
        TakeBack(w);
        r := hiReader.NextBack();
        if r.Some? {
          assert Abstract() == w.(back := Open(w.back.rest[..|w.back.rest| - 1]));
          return;
        }
        AdvanceHi();
      }
      EnsureLoInitialized();
      TakeBack(Abstract());
      if loReader != null {
        r := loReader.NextBack();
      } else {
        r := None;
      }
      TakeBack(Abstract());
    }
  }

  /** A reader over a run, or none if the range overlaps none of its tables. */
  method NewReader(run: seq<Table>, rangeLo: Bound<Key>, rangeHi: Bound<Key>) returns (r: RunReader?)
    requires ValidRun(run) && run != []
    ensures r == null ==> Filter(RunEntries(run, 0, |run|), InBounds(rangeLo, rangeHi)) == []
    ensures r != null ==>
      && r.Valid() && fresh(r) && r.run == run
      && r.Contents() == Filter(RunEntries(run, 0, |run|), InBounds(rangeLo, rangeHi))
  {
    hide Filter, ValidRun, Overlapped;
    var at := RangeOverlapIndexes(run, rangeLo, rangeHi);
    if at.None? {
      OutOfRange(run, rangeLo, rangeHi);
      return null;
    }
    r := new RunReader.Culled(run, rangeLo, rangeHi, at.value.0, at.value.1);
  }

  lemma OutOfRange(run: seq<Table>, lo: Bound<Key>, hi: Bound<Key>)
    requires Overlapped(run, None, lo, hi)
    ensures Filter(RunEntries(run, 0, |run|), InBounds(lo, hi)) == []
  {
    hide WhollyOut, Filter;
    InRangeEntriesFilter(run, 0, |run|, lo, hi);
    InRangeEntriesNone(run, 0, |run|, lo, hi);
  }
}
