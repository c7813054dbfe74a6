/**
 A scan over the two-tournament merger, on values: the lookahead slots, the grouping
 of versions and the two filters, call by call, in every state the merger can reach.
 */
module ScanSteps {
  import opened Core
  import opened Mvcc
  import opened Peekable
  import opened Pipeline
  import opened RangeTombstones
  import opened SeekingHoldings
  import opened SeekingSteps

  /** `Broken`: the merger met an absent leaf. */
  datatype Reply<+T> = Answer(value: Option<T>) | Broken

  datatype Lookahead = Lookahead(merger: State, front: MaybePeeked<Entry>, back: MaybePeeked<Entry>) {
    function Slot(forward: bool): MaybePeeked<Entry> {
      if forward then front else back
    }

    function With(forward: bool, slot: MaybePeeked<Entry>): Lookahead {
      if forward then this.(front := slot) else this.(back := slot)
    }
  }

  /** How many entries are left, in the slots and below. */
  function Left(p: Lookahead): nat
    requires Ok(p.merger)
  {
    |Holdings(p.merger)| + |p.front.Held()| + |p.back.Held()|
  }

  // --- src/double_ended_peekable.rs ---

  /** A pull of the merger, if nothing is known at this end yet. */
  function Fetched(p: Lookahead, forward: bool): (r: (Reply<Entry>, State))
    requires Ok(p.merger)
    ensures Ok(r.1)
    ensures r.0.Answer? && r.0.value.Some? ==> |Holdings(r.1)| == |Holdings(p.merger)| - 1
    ensures r.0 == Answer(None) ==> |Holdings(r.1)| == |Holdings(p.merger)|
  {
    hide Step, Holdings;
    if p.Slot(forward).Peeked? then (Answer(None), p.merger)
    else
      StepConserves(p.merger, forward);
      var (o, s) := Step(p.merger, forward);
      (if o == Fault then Broken else Answer(if o.Item? then Some(o.item.entry) else None), s)
  }

  function NextFrom(p: Lookahead, forward: bool): (r: (Reply<Entry>, Lookahead))
    requires Ok(p.merger)
    ensures Ok(r.1.merger)
    ensures r.0.Answer? && r.0.value.Some? ==> Left(r.1) == Left(p) - 1
    ensures r.0 == Answer(None) ==> Left(r.1) == Left(p)
  {
    hide Fetched, Holdings;
    var mine, q := p.Slot(forward), p.With(forward, Unpeeked);
    if mine.Peeked? && mine.item.Some? then (Answer(mine.item), q)
    else
      var (fetched, s) := Fetched(p, forward);
      if fetched == Answer(None)
      then (Answer(p.Slot(!forward).IntoPeekedValue()), q.(merger := s).With(!forward, Unpeeked))
      else (fetched, q.(merger := s))
  }

  function PeekAt(p: Lookahead, forward: bool): (r: (Reply<Entry>, Lookahead))
    requires Ok(p.merger)
    ensures Ok(r.1.merger)
    ensures r.0.Answer? ==> Left(r.1) == Left(p)
  {
    hide Fetched, Holdings;
    var mine, (fetched, s) := p.Slot(forward), Fetched(p, forward);
    if fetched.Broken? then (Broken, p.(merger := s))
    else
      var slot := if mine.Peeked? then mine else Peeked(fetched.value);
      (Answer(if slot.item.Some? then slot.item else p.Slot(!forward).IntoPeekedValue()),
       p.(merger := s).With(forward, slot))
  }

  // --- src/mvcc_stream.rs ---

  /** The rest of a key's run at the front, newest first; `None` if the merger broke. */
  function FrontRun(p: Lookahead, key: Key): (r: (Option<seq<Entry>>, Lookahead))
    requires Ok(p.merger)
    ensures Ok(r.1.merger)
    ensures r.0.Some? ==> Left(r.1) == Left(p) - |r.0.value|
    decreases Left(p)
  {
    hide NextFrom, Holdings;
    var (next, q) := NextFrom(p, true);
    if next.Broken? then (None, q)
    else if next.value.Some? && next.value.value.key == key then
      var (rest, t) := FrontRun(q, key);
      (if rest.Some? then Some([next.value.value] + rest.value) else None, t)
    else (Some([]), q.(front := Peeked(next.value)))
  }

  /** The whole last run, newest first; nothing if nothing is left. */
  function BackRun(p: Lookahead): (r: (Option<seq<Entry>>, Lookahead))
    requires Ok(p.merger)
    ensures Ok(r.1.merger)
    ensures r.0.Some? ==> Left(r.1) == Left(p) - |r.0.value|
    decreases Left(p)
  {
    hide NextFrom, PeekAt, Holdings;
    var (next, q) := NextFrom(p, false);
    if next.Broken? then (None, q)
    else if next.value.None? then (Some([]), q)
    else
      var (prev, t) := PeekAt(q, false);
      if prev.Broken? then (None, t)
      else if prev.value.None? || prev.value.value.key != next.value.value.key then (Some([next.value.value]), t)
      else
        var (rest, u) := BackRun(t);
        (if rest.Some? then Some(rest.value + [next.value.value]) else None, u)
  }

  /** The versions of the key at one end. */
  function GroupFrom(p: Lookahead, forward: bool): (r: (Option<seq<Entry>>, Lookahead))
    requires Ok(p.merger)
    ensures Ok(r.1.merger)
    ensures r.0.Some? ==> Left(r.1) == Left(p) - |r.0.value|
  {
    hide NextFrom, FrontRun, BackRun, Holdings;
    if !forward then BackRun(p)
    else
      var (next, q) := NextFrom(p, true);
      if next.Broken? then (None, q)
      else if next.value.None? then (Some([]), q)
      else
        var (rest, t) := FrontRun(q, next.value.value.key);
        (if rest.Some? then Some([next.value.value] + rest.value) else None, t)
  }

  // --- src/range.rs ---

  /** `next` and `next_back` of a scan. */
  function ScanNext(p: Lookahead, forward: bool, op: Option<MergeOp>, rts: seq<Sourced>): (Reply<Item>, Lookahead)
    requires Ok(p.merger)
    decreases Left(p)
  {
    hide GroupFrom, Holdings;
    var (group, q) := GroupFrom(p, forward);
    if group.None? then (Broken, q)
    else if group.value == [] then (Answer(None), q)
    else
      var item := ResolveGroup(group.value, op, rts);
      if PointSurvives(rts)(item) then (Answer(Some(item)), q) else ScanNext(q, forward, op, rts)
  }

  lemma {:induction false} ScanNextOk(p: Lookahead, forward: bool, op: Option<MergeOp>, rts: seq<Sourced>)
    requires Ok(p.merger)
    ensures Ok(ScanNext(p, forward, op, rts).1.merger)
    decreases Left(p)
  {
    hide GroupFrom, Holdings, Ok, ResolveGroup, PointSurvives;
    var (group, q) := GroupFrom(p, forward);
    if group.Some? && group.value != [] && !PointSurvives(rts)(ResolveGroup(group.value, op, rts)) {
      ScanNextOk(q, forward, op, rts);
    }
  }

  /** What a list of calls gets, up to a break. */
  function ScanRun(p: Lookahead, op: Option<MergeOp>, rts: seq<Sourced>, calls: seq<bool>): seq<Reply<Item>>
    requires Ok(p.merger)
    decreases |calls|
  {
    if calls == [] then []
    else
      ScanNextOk(p, calls[0], op, rts);
      var (reply, q) := ScanNext(p, calls[0], op, rts);
      if reply.Broken? then [Broken] else [reply] + ScanRun(q, op, rts, calls[1..])
  }
}
