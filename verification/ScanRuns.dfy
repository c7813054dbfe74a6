/**
 Whole scans over the two-tournament merger: they are served from both ends exactly
 for the call patterns that change direction at most once.
 */
module ScanRuns {
  import opened Core
  import opened MergeSpec
  import opened Mvcc
  import opened Peekable
  import opened Pipeline
  import opened RangeTombstones
  import opened RtFilter
  import opened ScanSteps
  import opened SeekingDeque
  import opened SeekingHoldings
  import opened SeekingMergers
  import opened SeekingRuns
  import opened SeekingSteps
  import opened TombstoneSkips

  // --- at most one turn ---

  /** The slot of a direction, what lies below, and the other slot, in key order. */
  function Joined(forward: bool, mine: MaybePeeked<Entry>, below: seq<Entry>, theirs: MaybePeeked<Entry>): seq<Entry> {
    if forward then mine.Held() + below + theirs.Held() else theirs.Held() + below + mine.Held()
  }

  /** The entries a scan has not resolved yet. */
  ghost function Rest(p: Lookahead): seq<Entry>
    requires Ok(p.merger)
  {
    Joined(true, p.front, Entries(Contents(p.merger)), p.back)
  }

  lemma RestAt(p: Lookahead, forward: bool)
    requires Ok(p.merger)
    ensures Rest(p) == Joined(forward, p.Slot(forward), Entries(Contents(p.merger)), p.Slot(!forward))
  {
  }

  /** `x` added at one end of `all`. */
  function Extended(forward: bool, x: Entry, all: seq<Entry>): seq<Entry> {
    if forward then [x] + all else all + [x]
  }

  lemma ExtendedPops(forward: bool, x: Entry, all: seq<Entry>)
    ensures PoppedEnd(forward, Extended(forward, x, all), Some(x), all)
  {
  }

  lemma PoppedExtends(forward: bool, before: seq<Entry>, x: Entry, all: seq<Entry>)
    requires PoppedEnd(forward, before, Some(x), all)
    ensures before == Extended(forward, x, all)
  {
  }

  lemma PeekedExtends(forward: bool, x: Entry, below: seq<Entry>, theirs: MaybePeeked<Entry>)
    ensures Joined(forward, Peeked(Some(x)), below, theirs) == Extended(forward, x, Joined(forward, Unpeeked, below, theirs))
    ensures Joined(forward, Unpeeked, Extended(forward, x, below), theirs) ==
            Extended(forward, x, Joined(forward, Unpeeked, below, theirs))
  {
    var held := theirs.Held();
    if forward {
      assert [x] + below + held == [x] + (below + held);
      assert [] + below + held == below + held && [] + ([x] + below) + held == [x] + below + held;
    } else {
      assert held + below + [x] == held + (below + [x]);
      assert held + below + [] == held + below && held + (below + [x]) + [] == held + (below + [x]);
    }
  }

  lemma TakePeeked(forward: bool, x: Entry, below: seq<Entry>, theirs: MaybePeeked<Entry>)
    ensures PoppedEnd(forward, Joined(forward, Peeked(Some(x)), below, theirs), Some(x),
                      Joined(forward, Unpeeked, below, theirs))
  {
    hide Joined, Extended, PoppedEnd;
    PeekedExtends(forward, x, below, theirs);
    ExtendedPops(forward, x, Joined(forward, Unpeeked, below, theirs));
  }

  lemma TakeBelow(forward: bool, below: seq<Entry>, x: Entry, after: seq<Entry>, theirs: MaybePeeked<Entry>)
    requires PoppedEnd(forward, below, Some(x), after)
    ensures PoppedEnd(forward, Joined(forward, Unpeeked, below, theirs), Some(x), Joined(forward, Unpeeked, after, theirs))
    ensures Joined(forward, Peeked(Some(x)), after, theirs) == Joined(forward, Unpeeked, below, theirs)
  {
    hide Joined, Extended, PoppedEnd;
    PoppedExtends(forward, below, x, after);
    PeekedExtends(forward, x, after, theirs);
    ExtendedPops(forward, x, Joined(forward, Unpeeked, after, theirs));
  }

  lemma TakeOther(forward: bool, mine: MaybePeeked<Entry>, theirs: MaybePeeked<Entry>)
    requires mine.Held() == []
    ensures PoppedEnd(forward, Joined(forward, mine, [], theirs), theirs.IntoPeekedValue(),
                      Joined(forward, Unpeeked, [], Unpeeked))
  {
    assert Joined(forward, Unpeeked, [], Unpeeked) == [];
    assert Joined(forward, mine, [], theirs) == theirs.Held();
    if theirs.IntoPeekedValue().Some? {
      var x := theirs.item.value;
      assert [x][1..] == [] && [x][..0] == [];
    }
  }

  /** The scan may be pulled in this direction. */
  ghost predicate Sound(p: Lookahead, forward: bool) {
    && Good(p.merger, forward)
    && (p.front == Peeked(None) || p.back == Peeked(None) ==> Contents(p.merger) == [])
  }

  /** It still may, and the other direction is used if and only if it was. */
  ghost predicate Kept(p: Lookahead, q: Lookahead, forward: bool) {
    Sound(q, forward) && q.merger.At(!forward).primed == p.merger.At(!forward).primed
  }

  lemma SoundIsOk(p: Lookahead, forward: bool)
    requires Sound(p, forward)
    ensures Ok(p.merger)
  {
  }

  lemma FetchedRight(p: Lookahead, forward: bool)
    requires Sound(p, forward)
    ensures Ok(p.merger)
    ensures
      var (r, s) := Fetched(p, forward);
      && r.Answer? && Good(s, forward) && s.At(!forward).primed == p.merger.At(!forward).primed
      && (p.Slot(forward).Peeked? ==> r == Answer(None) && s == p.merger)
      && (p.Slot(forward).Unpeeked? ==>
            PoppedEnd(forward, Entries(Contents(p.merger)), r.value, Entries(Contents(s))))
  {
    hide Step, Good, Contents, Popped, Holdings;
    SoundIsOk(p, forward);
    if p.Slot(forward).Unpeeked? {
      StepRight(p.merger, forward);
      var (o, s) := Step(p.merger, forward);
      EntriesPopped(forward, Contents(p.merger), o, Contents(s));
    }
  }

  lemma NextFromRight(p: Lookahead, forward: bool)
    requires Sound(p, forward)
    ensures Ok(p.merger)
    ensures
      var (r, q) := NextFrom(p, forward);
      r.Answer? && Kept(p, q, forward) && q.Slot(forward).Unpeeked? && PoppedEnd(forward, Rest(p), r.value, Rest(q))
  {
    hide Fetched, Good, Contents, Holdings, Ok, Rest, Joined;
    SoundIsOk(p, forward);
    FetchedRight(p, forward);
    var (r, q) := NextFrom(p, forward);
    var mine, theirs, below := p.Slot(forward), p.Slot(!forward), Entries(Contents(p.merger));
    RestAt(p, forward);
    RestAt(q, forward);
    if mine.Peeked? && mine.item.Some? {
      TakePeeked(forward, mine.item.value, below, theirs);
    } else {
      var (fetched, s) := Fetched(p, forward);
      if fetched.value.Some? {
        TakeBelow(forward, below, fetched.value.value, Entries(Contents(s)), theirs);
      } else {
        TakeOther(forward, mine, theirs);
      }
    }
  }

  lemma PeekAtRight(p: Lookahead, forward: bool)
    requires Sound(p, forward)
    ensures Ok(p.merger)
    ensures
      var (r, q) := PeekAt(p, forward);
      && r.Answer? && Kept(p, q, forward) && Rest(q) == Rest(p)
      && r.value == if Rest(p) == [] then None else Some(Rest(p)[if forward then 0 else |Rest(p)| - 1])
  {
    hide Fetched, Good, Contents, Holdings, Ok, Rest;
    SoundIsOk(p, forward);
    FetchedRight(p, forward);
    var q := PeekAt(p, forward).1;
    RestAt(p, forward);
    RestAt(q, forward);
    var (fetched, s) := Fetched(p, forward);
    if p.Slot(forward).Unpeeked? && fetched.value.Some? {
      TakeBelow(forward, Entries(Contents(p.merger)), fetched.value.value, Entries(Contents(s)), p.Slot(!forward));
    }
  }

  lemma KeyRunOne(c: seq<Entry>, key: Key)
    ensures c == [] || c[0].key != key ==> KeyRun(c, key) == 0
    ensures c != [] && c[0].key == key ==>
      var n := KeyRun(c[1..], key);
      KeyRun(c, key) == n + 1 && c[..n + 1] == [c[0]] + c[1..][..n] && c[n + 1..] == c[1..][n..]
  {
  }

  lemma PutBack(q: Lookahead, next: Option<Entry>, before: seq<Entry>)
    requires Ok(q.merger) && q.front.Unpeeked? && PoppedEnd(true, before, next, Rest(q))
    ensures Rest(q.(front := Peeked(next))) == before
    ensures next.None? ==> Contents(q.merger) == []
  {
  }

  lemma {:induction false} FrontRunRight(p: Lookahead, key: Key)
    requires Sound(p, true)
    ensures Ok(p.merger)
    ensures
      var (run, q) := FrontRun(p, key);
      var n := KeyRun(Rest(p), key);
      run == Some(Rest(p)[..n]) && Rest(q) == Rest(p)[n..] && Kept(p, q, true)
    decreases Left(p)
  {
    hide NextFrom, Good, Contents, Holdings, Ok, Rest, KeyRun;
    SoundIsOk(p, true);
    NextFromRight(p, true);
    var (next, q) := NextFrom(p, true);
    KeyRunOne(Rest(p), key);
    if next.value.Some? && next.value.value.key == key {
      FrontRunRight(q, key);
    } else {
      PutBack(q, next.value, Rest(p));
    }
  }

  /** `g` is the last run of entries with the same key, all of it. */
  ghost predicate LastRun(c: seq<Entry>, g: seq<Entry>, before: seq<Entry>) {
    && c == before + g && (g == [] ==> c == [])
    && (forall i :: 0 <= i < |g| ==> g[i].key == g[|g| - 1].key)
    && (before != [] && g != [] ==> before[|before| - 1].key != g[0].key)
  }

  lemma LastRunAlone(c: seq<Entry>, e: Entry, before: seq<Entry>)
    requires PoppedEnd(false, c, Some(e), before) && (before == [] || before[|before| - 1].key != e.key)
    ensures LastRun(c, [e], before)
  {
    assert c == before + [e];
  }

  lemma LastRunLonger(c: seq<Entry>, e: Entry, before: seq<Entry>, g: seq<Entry>, rest: seq<Entry>)
    requires PoppedEnd(false, c, Some(e), before) && before != [] && before[|before| - 1].key == e.key
    requires LastRun(before, g, rest)
    ensures LastRun(c, g + [e], rest)
  {
    assert c == before + [e] && g[|g| - 1] == before[|before| - 1];
    assert c == rest + (g + [e]);
  }

  lemma {:induction false} BackRunRight(p: Lookahead)
    requires Sound(p, false)
    ensures Ok(p.merger)
    ensures
      var (run, q) := BackRun(p);
      run.Some? && LastRun(Rest(p), run.value, Rest(q)) && Kept(p, q, false)
    decreases Left(p)
  {
    hide NextFrom, PeekAt, Good, Contents, Holdings, Ok, Rest;
    SoundIsOk(p, false);
    NextFromRight(p, false);
    var (next, q) := NextFrom(p, false);
    if next.value.Some? {
      hide LastRun;
      PeekAtRight(q, false);
      var (prev, t) := PeekAt(q, false);
      if prev.value.Some? && prev.value.value.key == next.value.value.key {
        BackRunRight(t);
        var (run, u) := BackRun(t);
        LastRunLonger(Rest(p), next.value.value, Rest(t), run.value, Rest(u));
      } else {
        LastRunAlone(Rest(p), next.value.value, Rest(q));
      }
    }
  }

  /** The group at one end resolves to the item at that end. */
  lemma GroupRight(p: Lookahead, forward: bool, op: Option<MergeOp>, rts: seq<Sourced>)
    requires Sound(p, forward)
    ensures Ok(p.merger)
    ensures
      var (group, q) := GroupFrom(p, forward);
      && group.Some? && Kept(p, q, forward)
      && (group.value == [] ==> Rest(p) == [] && Rest(q) == [])
      && (group.value != [] ==>
            PoppedEnd(forward, Collapse(Rest(p), op, rts), Some(ResolveGroup(group.value, op, rts)),
                      Collapse(Rest(q), op, rts)))
  {
    hide NextFrom, FrontRun, BackRun, Good, Contents, Holdings, Ok, Rest, Collapse, ResolveGroup, KeyRun, PoppedBack;
    SoundIsOk(p, forward);
    var c := Rest(p);
    if forward {
      NextFromRight(p, true);
      var (next, q) := NextFrom(p, true);
      if next.value.Some? {
        var key := next.value.value.key;
        FrontRunRight(q, key);
        FirstRun(c, KeyRun(c[1..], key), op, rts);
      }
    } else {
      BackRunRight(p);
      var (run, q) := BackRun(p);
      if run.value != [] {
        FinalRun(c, run.value, Rest(q), op, rts);
      }
    }
  }

  lemma FirstRun(c: seq<Entry>, n: nat, op: Option<MergeOp>, rts: seq<Sourced>)
    requires c != [] && n == KeyRun(c[1..], c[0].key)
    ensures Collapse(c, op, rts) == [ResolveGroup([c[0]] + c[1..][..n], op, rts)] + Collapse(c[1..][n..], op, rts)
  {
    hide Collapse, ResolveGroup, KeyRun;
    assert [c[0]] + c[1..][..n] == c[..n + 1] && c[1..][n..] == c[n + 1..];
    CollapseFirst(c, n + 1, op, rts);
  }

  lemma FinalRun(c: seq<Entry>, run: seq<Entry>, before: seq<Entry>, op: Option<MergeOp>, rts: seq<Sourced>)
    requires LastRun(c, run, before) && run != []
    ensures PoppedBack(Collapse(c, op, rts), Some(ResolveGroup(run, op, rts)), Collapse(before, op, rts))
  {
    hide Collapse, ResolveGroup, PoppedBack;
    var k := |before|;
    assert c[k..] == run && c[..k] == before;
    CollapseLast(c, k, op, rts);
  }

  lemma {:induction false} ScanNextRight(p: Lookahead, forward: bool, op: Option<MergeOp>, rts: seq<Sourced>)
    requires Sound(p, forward)
    ensures Ok(p.merger)
    ensures
      var (reply, q) := ScanNext(p, forward, op, rts);
      && reply.Answer? && Kept(p, q, forward)
      && PoppedEnd(forward, Filter(Collapse(Rest(p), op, rts), PointSurvives(rts)), reply.value,
                   Filter(Collapse(Rest(q), op, rts), PointSurvives(rts)))
    decreases Left(p)
  {
    hide GroupFrom, Good, Contents, Holdings, Ok, Rest, Collapse, ResolveGroup, PointSurvives, Filter, PoppedFront, PoppedBack;
    SoundIsOk(p, forward);
    GroupRight(p, forward, op, rts);
    var (group, q) := GroupFrom(p, forward);
    if group.value == [] {
      NothingScanned(op, rts);
    } else {
      var item := ResolveGroup(group.value, op, rts);
      FilteredEnd(forward, Collapse(Rest(p), op, rts), item, Collapse(Rest(q), op, rts), PointSurvives(rts));
      if !PointSurvives(rts)(item) {
        ScanNextRight(q, forward, op, rts);
      }
    }
  }

  lemma NothingScanned(op: Option<MergeOp>, rts: seq<Sourced>)
    ensures Filter(Collapse([], op, rts), PointSurvives(rts)) == []
    ensures PoppedFront<Item>([], None, []) && PoppedBack<Item>([], None, [])
  {
  }

  lemma FilteredEnd(forward: bool, before: seq<Item>, item: Item, after: seq<Item>, keep: Item -> bool)
    requires PoppedEnd(forward, before, Some(item), after)
    ensures keep(item) ==> PoppedEnd(forward, Filter(before, keep), Some(item), Filter(after, keep))
    ensures !keep(item) ==> Filter(before, keep) == Filter(after, keep)
  {
    hide Filter, PoppedFront, PoppedBack;
    if forward {
      FilteredFront(before, Some(item), after, keep);
    } else {
      FilteredBack(before, Some(item), after, keep);
    }
  }

  /** The answers of a deque, as replies. */
  function Answers<T>(answers: seq<Option<T>>): seq<Reply<T>> {
    if answers == [] then [] else [Answer(answers[0])] + Answers(answers[1..])
  }

  lemma ServedReply(forward: bool, before: seq<Item>, r: Option<Item>, after: seq<Item>, calls: seq<bool>)
    requires calls != [] && calls[0] == forward && PoppedEnd(forward, before, r, after)
    ensures Answers(Served(before, calls)) == [Answer(r)] + Answers(Served(after, calls[1..]))
  {
    ServedOne(before, r, after, calls);
    assert ([r] + Served(after, calls[1..]))[1..] == Served(after, calls[1..]);
  }

  lemma {:induction false} ScanRunRight(p: Lookahead, op: Option<MergeOp>, rts: seq<Sourced>, calls: seq<bool>)
    requires calls != [] && Sound(p, calls[0])
    requires Turns(calls) == 0 || (Turns(calls) == 1 && !p.merger.At(!calls[0]).primed)
    ensures Ok(p.merger)
    ensures ScanRun(p, op, rts, calls) == Answers(Served(Filter(Collapse(Rest(p), op, rts), PointSurvives(rts)), calls))
    decreases |calls|
  {
    hide ScanNext, Contents, Ok, Rest, Collapse, Filter, PointSurvives, PoppedEnd, Served, Answers, Sound;
    SoundIsOk(p, calls[0]);
    ScanNextRight(p, calls[0], op, rts);
    ScanNextOk(p, calls[0], op, rts);
    var (reply, q) := ScanNext(p, calls[0], op, rts);
    var all := Filter(Collapse(Rest(p), op, rts), PointSurvives(rts));
    var left := Filter(Collapse(Rest(q), op, rts), PointSurvives(rts));
    ServedReply(calls[0], all, reply.value, left, calls);
    if calls[1..] != [] {
      SoundTurned(q, calls[0], calls[1]);
      ScanRunRight(q, op, rts, calls[1..]);
    } else {
      ServedNothing(left);
      assert Answers<Item>([]) == [] by { NothingAnswered<Item>(); }
    }
  }

  lemma NothingAnswered<T>()
    ensures Answers<T>([]) == []
  {
  }

  /** An unused direction can be taken up. */
  lemma SoundTurned(q: Lookahead, forward: bool, next: bool)
    requires Sound(q, forward) && (next == forward || !q.merger.At(next).primed)
    ensures Sound(q, next)
  {
  }

  function ScanStart(sources: seq<seq<Entry>>): Lookahead {
    Lookahead(Start(sources), Unpeeked, Unpeeked)
  }

  /** With at most one change of direction a scan answers as a deque of the meaning of
      its keys. */
  lemma OneTurnScan(sources: seq<seq<Entry>>, op: Option<MergeOp>, rts: seq<Sourced>, calls: seq<bool>)
    requires SourcesSorted(sources) && Turns(calls) <= 1
    ensures ServedOver(sources, rts, op, calls)
  {
    hide Turns, Merged, Collapse, Filter, PointSurvives, ScanMeaning, Scanned, Served;
    StartOk(sources);
    var m := Entries(Merged(sources));
    MergedOrdered(sources);
    PointPathAgrees(m, op, rts);
    ScanIsMeaning(m, op, rts);
    if calls != [] {
      assert Rest(ScanStart(sources)) == m;
      ScanRunRight(ScanStart(sources), op, rts, calls);
    } else {
      ServedNothing(ScanMeaning(m, op, rts));
    }
  }

  // --- two turns ---

  /** No two entries of the same key, and all of them values. */
  ghost predicate Lone(bag: multiset<Entry>) {
    && (forall e :: bag[e] <= 1)
    && (forall a, b :: a in bag && b in bag && a.key == b.key ==> a == b)
    && (forall e :: e in bag ==> e.kind.Value?)
  }

  /** Everything a scan has not resolved yet. */
  ghost function Pending(p: Lookahead): multiset<Entry>
    requires Ok(p.merger)
  {
    Holdings(p.merger) + multiset(p.front.Held()) + multiset(p.back.Held())
  }

  /** Whether an entry was pulled or peeked before makes no difference to the scan. */
  lemma PulledOrPeeked(p: Lookahead, forward: bool, op: Option<MergeOp>, rts: seq<Sourced>)
    requires Ok(p.merger) && p.Slot(forward).Unpeeked? && Step(p.merger, forward).0.Item?
    ensures
      var (o, s) := Step(p.merger, forward);
      Ok(s) && ScanNext(p, forward, op, rts) ==
               ScanNext(p.(merger := s).With(forward, Peeked(Some(o.item.entry))), forward, op, rts)
  {
    hide Step, Ok, Holdings, FrontRun, PeekAt;
    StepOk(p.merger, forward);
    var (o, s) := Step(p.merger, forward);
    var q := p.(merger := s).With(forward, Peeked(Some(o.item.entry)));
    assert NextFrom(p, forward) == NextFrom(q, forward);
  }

  lemma LoneApart(held: multiset<Entry>, e: Entry, x: Entry, after: multiset<Entry>, others: multiset<Entry>)
    requires Lone(held + multiset([e]) + others) && held == after + multiset([x])
    ensures x.key != e.key && Lone(after + multiset([x]) + others)
  {
    var bag := held + multiset([e]) + others;
    assert e in bag && x in bag && bag[e] == held[e] + 1 + others[e] && held[x] >= 1;
    forall a | a in after + multiset([x]) + others ensures a in bag {
    }
  }

  lemma PendingAt(p: Lookahead, forward: bool)
    requires Ok(p.merger)
    ensures Pending(p) == Holdings(p.merger) + multiset(p.Slot(forward).Held()) + multiset(p.Slot(!forward).Held())
  {
  }

  /** A lone value resolves to itself. */
  lemma LoneResolves(e: Entry, op: Option<MergeOp>)
    requires e.kind.Value?
    ensures ResolveGroup([e], op, []) == Row(e) && PointSurvives([])(Row(e))
  {
    assert !EntrySuppressed([], e);
    assert Survives([])(Row(e));
  }

  /** The group of the entry in the slot is that entry, if the merger shows another key. */
  lemma GroupOfOne(p: Lookahead, forward: bool)
    requires Ok(p.merger) && p.Slot(forward).Peeked? && p.Slot(forward).item.Some?
    ensures
      var (o, s) := Step(p.merger, forward);
      && Ok(s)
      && (o == Fault ==> GroupFrom(p, forward).0 == None)
      && (o.Item? && o.item.entry.key != p.Slot(forward).item.value.key ==>
            GroupFrom(p, forward) ==
            (Some([p.Slot(forward).item.value]), p.(merger := s).With(forward, Peeked(Some(o.item.entry)))))
  {
    hide Step, Ok, Holdings;
    StepOk(p.merger, forward);
    var e, q := p.Slot(forward).item.value, p.With(forward, Unpeeked);
    var (o, s) := Step(p.merger, forward);
    assert NextFrom(p, forward) == (Answer(Some(e)), q);
    if forward && o.Item? {
      var x := o.item.entry;
      assert NextFrom(q, true) == (Answer(Some(x)), q.(merger := s));
      assert x.key != e.key ==> FrontRun(q, e.key) == (Some([]), q.(merger := s, front := Peeked(Some(x))));
      assert [e] + [] == [e];
    }
  }

  /** A lone entry in the slot is handed out once the merger has shown the next one. */
  lemma OneCall(p: Lookahead, forward: bool, op: Option<MergeOp>)
    requires Ok(p.merger) && Lone(Pending(p)) && p.Slot(forward).Peeked? && p.Slot(forward).item.Some?
    ensures
      var (o, s) := Step(p.merger, forward);
      && Ok(s)
      && (o == Fault ==> ScanNext(p, forward, op, []).0 == Broken)
      && (o.Item? ==>
            var q := p.(merger := s).With(forward, Peeked(Some(o.item.entry)));
            && ScanNext(p, forward, op, []) == (Answer(Some(Row(p.Slot(forward).item.value))), q)
            && Lone(Pending(q)))
  {
    hide Step, Ok, Holdings, GroupFrom, Pending, ResolveGroup, PointSurvives;
    StepConserves(p.merger, forward);
    var (o, s) := Step(p.merger, forward);
    var e := p.Slot(forward).item.value;
    PendingAt(p, forward);
    GroupOfOne(p, forward);
    if o.Item? {
      PendingAt(p.(merger := s).With(forward, Peeked(Some(o.item.entry))), forward);
      LoneApart(Holdings(p.merger), e, o.item.entry, Holdings(s), multiset(p.Slot(!forward).Held()));
      assert e in Pending(p);
      LoneResolves(e, op);
    }
  }

  /** The first direction leads, with its next entry in the slot. */
  ghost predicate ScanLeading(p: Lookahead, forward: bool, y: Entry) {
    && Leading(p.merger, forward, y) && Lone(Pending(p))
    && p.Slot(forward).Peeked? && p.Slot(forward).item.Some? && p.Slot(!forward).Unpeeked?
  }

  /** After a turn: both slots are filled, and the first tournament is orphaned. */
  ghost predicate ScanOrphaned(p: Lookahead, forward: bool) {
    && Orphaned(p.merger, forward) && Lone(Pending(p))
    && p.front.Peeked? && p.front.item.Some? && p.back.Peeked? && p.back.item.Some?
  }

  lemma ScanLeadingStep(p: Lookahead, forward: bool, y: Entry, op: Option<MergeOp>)
    requires ScanLeading(p, forward, y) && p.merger.sources[0] != []
    ensures
      var (reply, q) := ScanNext(p, forward, op, []);
      reply.Answer? && ScanLeading(q, forward, y) && |q.merger.sources[0]| == |p.merger.sources[0]| - 1
  {
    hide Step, Leading, Pending, ScanNext, Lone;
    LeadingOk(p.merger, forward, y);
    LeadingStep(p.merger, forward, y);
    OneCall(p, forward, op);
  }

  /** Turning pulls twice: the first pull orphans the other tournament. */
  lemma ScanTurn(p: Lookahead, forward: bool, y: Entry, op: Option<MergeOp>)
    requires ScanLeading(p, forward, y) && |p.merger.sources[0]| >= 2
    ensures
      var (reply, q) := ScanNext(p, !forward, op, []);
      reply.Answer? && ScanOrphaned(q, forward) && |q.merger.sources[0]| == |p.merger.sources[0]| - 2
  {
    hide Step, Leading, Orphaned, ScanNext, Pending, Lone;
    LeadingOk(p.merger, forward, y);
    TurnOrphans(p.merger, forward, y);
    PulledOrPeeked(p, !forward, op, []);
    PendingPeeked(p, !forward);
    var (o, s) := Step(p.merger, !forward);
    var q := p.(merger := s).With(!forward, Peeked(Some(o.item.entry)));
    OrphanedOk(s, forward);
    OrphanedStep(s, forward);
    OneCall(q, !forward, op);
  }

  lemma ScanOrphanedStep(p: Lookahead, forward: bool, op: Option<MergeOp>)
    requires ScanOrphaned(p, forward) && p.merger.sources[0] != []
    ensures
      var (reply, q) := ScanNext(p, !forward, op, []);
      reply.Answer? && ScanOrphaned(q, forward) && |q.merger.sources[0]| == |p.merger.sources[0]| - 1
  {
    hide Step, Orphaned, Pending, ScanNext, Lone;
    OrphanedOk(p.merger, forward);
    OrphanedStep(p.merger, forward);
    OneCall(p, !forward, op);
  }

  lemma {:induction false} ScanOrphanedBreaks(p: Lookahead, forward: bool, op: Option<MergeOp>, calls: seq<bool>)
    requires ScanOrphaned(p, forward) && |p.merger.sources[0]| >= |calls| && Turns([!forward] + calls) >= 1
    ensures Broken in ScanRun(p, op, [], calls)
    decreases |calls|
  {
    hide ScanNext, Orphaned, Pending, Lone;
    OrphanedOk(p.merger, forward);
    NextTurn(!forward, calls);
    if calls[0] == forward {
      OrphanedFaults(p.merger, forward);
      OneCall(p, forward, op);
    } else {
      ScanOrphanedStep(p, forward, op);
      ScanOrphanedBreaks(ScanNext(p, !forward, op, []).1, forward, op, calls[1..]);
    }
  }

  lemma {:induction false} ScanLeadingBreaks(p: Lookahead, forward: bool, y: Entry, op: Option<MergeOp>, calls: seq<bool>)
    requires ScanLeading(p, forward, y) && |p.merger.sources[0]| > |calls| && Turns([forward] + calls) >= 2
    ensures Broken in ScanRun(p, op, [], calls)
    decreases |calls|
  {
    hide ScanNext, ScanLeading, ScanOrphaned;
    assert Ok(p.merger) && |p.merger.sources| == 2 by { ScanLeadingOk(p, forward, y); }
    NextTurn(forward, calls);
    if calls[0] == forward {
      ScanLeadingStep(p, forward, y, op);
      ScanLeadingBreaks(ScanNext(p, forward, op, []).1, forward, y, op, calls[1..]);
    } else {
      NextTurn(calls[0], calls[1..]);
      ScanTurn(p, forward, y, op);
      ScanOrphanedBreaks(ScanNext(p, !forward, op, []).1, forward, op, calls[1..]);
    }
  }

  lemma ScanLeadingOk(p: Lookahead, forward: bool, y: Entry)
    requires ScanLeading(p, forward, y)
    ensures Ok(p.merger) && |p.merger.sources| == 2
  {
  }

  lemma {:induction false} LoneSeq(s: seq<Entry>)
    requires forall i, j :: 0 <= i < j < |s| ==> s[i].key != s[j].key
    requires forall i :: 0 <= i < |s| ==> s[i].kind.Value?
    ensures Lone(multiset(s))
  {
    if s != [] {
      var front, last := s[..|s| - 1], s[|s| - 1];
      LoneSeq(front);
      assert s == front + [last];
      assert last !in front;
      assert multiset(s) == multiset(front) + multiset{last};
    }
  }

  lemma BagOfTwo(sources: seq<seq<Entry>>)
    requires |sources| == 2
    ensures Bag(sources, 2) == multiset(sources[0] + sources[1])
  {
    assert Bag(sources, 1) == multiset(sources[0]);
  }

  lemma PairDistinct(forward: bool, n: nat)
    ensures |Pair(forward, n)| == 2
    ensures
      var all := Pair(forward, n)[0] + Pair(forward, n)[1];
      && (forall i, j :: 0 <= i < j < |all| ==> all[i].key != all[j].key)
      && (forall i :: 0 <= i < |all| ==> all[i].kind.Value?)
  {
    var all := Pair(forward, n)[0] + Pair(forward, n)[1];
    assert |all| == n + 1;
    assert forall i :: 0 <= i < n ==> all[i] == SeekingRuns.Plain(i);
    assert all[n] == SeekingRuns.Plain(if forward then n else -1);
  }

  lemma PairLone(forward: bool, n: nat)
    ensures Ok(Start(Pair(forward, n))) && Lone(Holdings(Start(Pair(forward, n))))
  {
    hide Lone, Ok, Pair, Bag;
    var sources := Pair(forward, n);
    StartOk(sources);
    PairDistinct(forward, n);
    LoneSeq(sources[0] + sources[1]);
    BagOfTwo(sources);
  }

  /** Peeking moves an entry from the merger to the slot. */
  lemma PendingPeeked(p: Lookahead, forward: bool)
    requires Ok(p.merger) && p.Slot(forward).Unpeeked? && Step(p.merger, forward).0.Item?
    ensures
      var (o, s) := Step(p.merger, forward);
      Ok(s) && Pending(p.(merger := s).With(forward, Peeked(Some(o.item.entry)))) == Pending(p)
  {
    hide Step, Holdings, Ok;
    StepConserves(p.merger, forward);
  }

  lemma ScanStartLeads(forward: bool, n: nat, op: Option<MergeOp>)
    requires n > 2
    ensures Ok(Start(Pair(forward, n)))
    ensures
      var (reply, q) := ScanNext(ScanStart(Pair(forward, n)), forward, op, []);
      reply.Answer? && ScanLeading(q, forward, Pair(forward, n)[1][0]) && |q.merger.sources[0]| == n - 3
  {
    hide Step, Leading, ScanNext, Holdings, Lone, Start, Ok;
    var sources := Pair(forward, n);
    var y := sources[1][0];
    PairSorted(forward, n);
    PairLone(forward, n);
    assert sources == [sources[0], [y]];
    StartLeads(forward, sources[0], y);
    var p := ScanStart(sources);
    assert Pending(p) == Holdings(p.merger);
    PulledOrPeeked(p, forward, op, []);
    PendingPeeked(p, forward);
    var (o, s) := Step(p.merger, forward);
    ScanLeadingStep(p.(merger := s).With(forward, Peeked(Some(o.item.entry))), forward, y, op);
  }

  /** Every pattern of calls that turns twice breaks a scan of single versions. */
  lemma TwoTurnsBreakScan(calls: seq<bool>, op: Option<MergeOp>)
    requires Turns(calls) >= 2
    ensures
      var sources := Pair(calls[0], |calls| + 4);
      SourcesSorted(sources) && Ok(Start(sources)) && Broken in ScanRun(ScanStart(sources), op, [], calls)
  {
    hide ScanNext, ScanLeading, Start;
    var forward, n := calls[0], |calls| + 4;
    PairSorted(forward, n);
    ScanStartLeads(forward, n, op);
    assert [forward] + calls[1..] == calls;
    var q := ScanNext(ScanStart(Pair(forward, n)), forward, op, []).1;
    ScanLeadingBreaks(q, forward, Pair(forward, n)[1][0], op, calls[1..]);
  }

  lemma {:induction false} AnswersDoNotBreak<T>(answers: seq<Option<T>>)
    ensures Broken !in Answers(answers)
  {
    if answers != [] {
      AnswersDoNotBreak(answers[1..]);
    }
  }

  /** A scan of these sources answers as a deque of the meaning of its keys. */
  ghost predicate ServedOver(sources: seq<seq<Entry>>, rts: seq<Sourced>, op: Option<MergeOp>, calls: seq<bool>) {
    && Ok(Start(sources))
    && ScanRun(ScanStart(sources), op, rts, calls) ==
       Answers(Served(ScanMeaning(Entries(Merged(sources)), op, rts), calls))
  }

  /** The promise for a pattern of calls, over all sorted sources and range tombstones. */
  ghost predicate ScanServed(calls: seq<bool>, op: Option<MergeOp>) {
    forall sources, rts :: SourcesSorted(sources) ==> ServedOver(sources, rts, op, calls)
  }

  lemma BrokenIsNotServed(sources: seq<seq<Entry>>, op: Option<MergeOp>, calls: seq<bool>)
    requires Ok(Start(sources)) && Broken in ScanRun(ScanStart(sources), op, [], calls)
    ensures !ServedOver(sources, [], op, calls)
  {
    hide ScanRun, Served, Answers, Merged, ScanMeaning;
    AnswersDoNotBreak(Served(ScanMeaning(Entries(Merged(sources)), op, []), calls));
  }

  /** A scan is served from both ends if and only if its calls change direction at most
      once. */
  lemma ScanUpToOneTurn(calls: seq<bool>, op: Option<MergeOp>)
    ensures ScanServed(calls, op) <==> Turns(calls) <= 1
  {
    hide ServedOver, ScanRun, SourcesSorted;
    if Turns(calls) <= 1 {
      forall sources, rts | SourcesSorted(sources)
        ensures ServedOver(sources, rts, op, calls)
      {
        OneTurnScan(sources, op, rts, calls);
      }
    } else {
      TwoTurnsBreakScan(calls, op);
      BrokenIsNotServed(Pair(calls[0], |calls| + 4), op, calls);
    }
  }
}
