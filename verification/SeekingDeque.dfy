/** When a pull of the two-tournament merger hands out the right item. */
module SeekingDeque {
  import opened Core
  import opened MergeSpec
  import opened LoserTheory
  import opened LoserTrees
  import opened Mergers
  import opened SeekingSteps

  function EntryOf(leaf: Option<Tagged>): Option<Entry> {
    if leaf.Some? then Some(leaf.value.entry) else None
  }

  /** What is left of each source: its forward leaf, what it has not yet handed
      over, and its backward leaf. */
  function LanesOf(s: State): (r: seq<Lane>)
    requires Ok(s)
    ensures |r| == |s.sources|
  {
    seq(|s.sources|, i requires 0 <= i < |s.sources| =>
      Lane(EntryOf(s.fwd.tree.leaves[i]), s.sources[i], EntryOf(s.bwd.tree.leaves[i])))
  }

  /** The merge of everything left. */
  ghost function Contents(s: State): seq<Tagged>
    requires Ok(s)
  {
    Merged(Rests(LanesOf(s)))
  }

  /** The cache tells the truth about the parked leaves. */
  ghost predicate CacheTrue(forward: bool, mine: Side, theirs: Tree) {
    match mine.parked
    case Stale => true
    case Empty => forall v :: v in mine.vacated ==> PeekSlot(theirs, v).None?
    case Best(slot) => BestOf(forward, theirs, mine.vacated, slot)
  }

  /** `slot` is among the vacated ones, has a parked leaf, and none beats it. */
  ghost predicate BestOf(forward: bool, theirs: Tree, vacated: seq<nat>, slot: nat) {
    && slot in vacated && PeekSlot(theirs, slot).Some?
    && (forall v :: v in vacated && PeekSlot(theirs, v).Some? ==>
          !Beats(forward, PeekSlot(theirs, v).value, PeekSlot(theirs, slot).value))
  }

  /** A primed direction whose tournament stands and whose books are right. */
  ghost predicate Standing(sources: seq<seq<Entry>>, forward: bool, mine: Side, theirs: Tree)
    requires |mine.tree.leaves| >= |sources|
  {
    && Tournament(forward, mine.tree.games, mine.tree.leaves)
    && (forall i :: 0 <= i < |sources| && mine.tree.leaves[i].None? ==> sources[i] == [] && i in mine.vacated)
    && (forall v :: v in mine.vacated ==> v < |sources| && mine.tree.leaves[v].None?)
    && CacheTrue(forward, mine, theirs)
  }

  /** The merger may be pulled in this direction: it has not been primed, or its
      tournament still stands. */
  ghost predicate Good(s: State, forward: bool) {
    && Ok(s) && SourcesSorted(Rests(LanesOf(s)))
    && (s.At(forward).primed ==> Standing(s.sources, forward, s.At(forward), s.At(!forward).tree))
  }

  // --- which item is the end of everything left ---

  /** The item of a source at this end: the leaf of this direction or, once the
      source has run out, the one the other direction holds. */
  function EndOf(mine: Tree, theirs: Tree, i: nat): Option<Tagged> {
    if PeekSlot(mine, i).Some? then PeekSlot(mine, i) else PeekSlot(theirs, i)
  }

  function LaneOf(forward: bool, mine: Option<Tagged>, middle: seq<Entry>, theirs: Option<Tagged>): Lane {
    if forward then Lane(EntryOf(mine), middle, EntryOf(theirs)) else Lane(EntryOf(theirs), middle, EntryOf(mine))
  }

  lemma LaneAt(s: State, forward: bool, i: nat)
    requires Ok(s) && i < |s.sources|
    ensures |s.At(forward).tree.leaves| > i && |s.At(!forward).tree.leaves| > i
    ensures LanesOf(s)[i] == LaneOf(forward, s.At(forward).tree.leaves[i], s.sources[i], s.At(!forward).tree.leaves[i])
    ensures Rests(LanesOf(s))[i] == LanesOf(s)[i].All()
  {
  }

  /** Within a source nothing comes ahead of its end. */
  lemma EndLeads(forward: bool, mine: Option<Tagged>, middle: seq<Entry>, theirs: Option<Tagged>, i: nat, e: Entry)
    requires mine.Some? ==> mine.value.source == i
    requires theirs.Some? ==> theirs.value.source == i
    requires mine.None? ==> middle == []
    requires SourceSorted(LaneOf(forward, mine, middle, theirs).All()) && e in LaneOf(forward, mine, middle, theirs).All()
    ensures
      var end := if mine.Some? then mine else theirs;
      end.Some? && (end.value == Tagged(i, e) || Beats(forward, end.value, Tagged(i, e)))
  {
    var all := LaneOf(forward, mine, middle, theirs).All();
    var k :| 0 <= k < |all| && all[k] == e;
    var end := if mine.Some? then mine else theirs;
    assert all[if forward then 0 else |all| - 1] == end.value.entry;
  }

  /** An item nothing comes ahead of is the end of the merge. */
  lemma UnbeatenIsEnd(forward: bool, rests: seq<seq<Entry>>, t: Tagged)
    requires SourcesSorted(rests) && FromSources(t, rests)
    requires forall x :: FromSources(x, rests) ==> x == t || Beats(forward, t, x)
    ensures var m := Merged(rests); m != [] && t == m[if forward then 0 else |m| - 1]
  {
    hide Merged;
    var m := Merged(rests);
    MergeExists(rests);
    assert t in m;
    var at := if forward then 0 else |m| - 1;
    assert m[at] in m;
    if forward {
      FirstIsLeast(m, t);
    } else {
      LastIsGreatest(m, t);
    }
  }

  // --- parked leaves ---

  lemma {:induction false} BestParkedIsBest(forward: bool, theirs: Tree, vacated: seq<nat>)
    ensures
      var r := BestParked(forward, theirs, vacated);
      if r.Some? then BestOf(forward, theirs, vacated, r.value)
      else forall v :: v in vacated ==> PeekSlot(theirs, v).None?
  {
    if vacated != [] {
      hide PeekSlot;
      var front, slot := vacated[..|vacated| - 1], vacated[|vacated| - 1];
      assert vacated == front + [slot];
      BestParkedIsBest(forward, theirs, front);
    }
  }

  /** The leaf this tournament would hand out next. */
  function WinnerOf(mine: Tree): Option<Tagged>
    requires |mine.games| == |mine.leaves| >= 2
  {
    if Present(mine.leaves) == 0 then None else PeekSlot(mine, mine.games[0])
  }

  /** A claim is the best parked leaf and goes ahead of the winner; without one, no
      parked leaf does. */
  lemma PickParkedRight(forward: bool, mine: Side, theirs: Tree)
    requires |mine.tree.games| == |mine.tree.leaves| >= 2 && CacheTrue(forward, mine, theirs)
    ensures
      var (claim, parked) := PickParked(forward, mine, theirs);
      var winner := WinnerOf(mine.tree);
      && CacheTrue(forward, mine.(parked := parked), theirs)
      && (claim.Some? ==>
            && BestOf(forward, theirs, mine.vacated, claim.value)
            && (winner.Some? ==> Beats(forward, PeekSlot(theirs, claim.value).value, winner.value)))
      && (claim.None? ==> forall v :: v in mine.vacated && PeekSlot(theirs, v).Some? ==>
            winner.Some? && !Beats(forward, PeekSlot(theirs, v).value, winner.value))
  {
    hide Present;
    if mine.vacated != [] {
      if Present(theirs.leaves) == 0 {
        PresentNone(theirs.leaves);
      } else {
        CandidateRight(forward, mine, theirs);
      }
    }
  }

  lemma CandidateRight(forward: bool, mine: Side, theirs: Tree)
    requires CacheTrue(forward, mine, theirs)
    ensures
      var (best, parked) := Candidate(forward, mine, theirs);
      && CacheTrue(forward, mine.(parked := parked), theirs)
      && (if best.Some? then BestOf(forward, theirs, mine.vacated, best.value)
          else forall v :: v in mine.vacated ==> PeekSlot(theirs, v).None?)
  {
    BestParkedIsBest(forward, theirs, mine.vacated);
  }

  // --- one pull ---

  lemma TreesOf(s: State, forward: bool)
    requires Ok(s)
    ensures TreeOk(s.At(forward).tree, |s.sources|) && TreeOk(s.At(!forward).tree, |s.sources|)
  {
  }

  /** The end of source `i`, if it has one, is `t` or comes after it. */
  ghost predicate EndBehind(s: State, forward: bool, t: Tagged, i: nat) {
    var end := EndOf(s.At(forward).tree, s.At(!forward).tree, i);
    end.Some? ==> end.value == t || Beats(forward, t, end.value)
  }

  /** If no source's end comes ahead of `t`, nothing does. */
  lemma UnbeatenEnds(s: State, forward: bool, t: Tagged)
    requires Good(s, forward) && s.At(forward).primed
    requires forall i :: 0 <= i < |s.sources| ==> EndBehind(s, forward, t, i)
    ensures forall x :: FromSources(x, Rests(LanesOf(s))) ==> x == t || Beats(forward, t, x)
  {
    hide Tournament, CacheTrue;
    var rests, mine, theirs := Rests(LanesOf(s)), s.At(forward).tree, s.At(!forward).tree;
    forall x | FromSources(x, rests)
      ensures x == t || Beats(forward, t, x)
    {
      var i := x.source;
      LaneAt(s, forward, i);
      SortedAt(rests, i);
      EndLeads(forward, mine.leaves[i], s.sources[i], theirs.leaves[i], i, x.entry);
      assert EndBehind(s, forward, t, i);
    }
  }

  /** The winner of a standing tournament is present, in range and unbeaten. */
  lemma WinnerStands(s: State, forward: bool)
    requires Good(s, forward) && s.At(forward).primed && Present(s.At(forward).tree.leaves) != 0
    ensures
      var mine := s.At(forward).tree;
      && |mine.games| == |mine.leaves| >= 2 && mine.games[0] < |s.sources| <= |mine.leaves|
      && mine.leaves[mine.games[0]].Some? && mine.leaves[mine.games[0]].value.source == mine.games[0]
      && forall i :: 0 <= i < |mine.leaves| ==> !LeafLess(forward, mine.leaves[i], mine.leaves[mine.games[0]])
  {
    hide Tournament, CacheTrue, Present;
    var mine := s.At(forward).tree;
    PresentNone(mine.leaves);
    LeastOverall(forward, mine.games, mine.leaves);
  }

  /** What a pull from one end of `before` may report, and leave. */
  ghost predicate Popped(forward: bool, before: seq<Tagged>, o: Outcome, after: seq<Tagged>) {
    match o
    case Item(t) => if forward then PoppedFront(before, Some(t), after) else PoppedBack(before, Some(t), after)
    case End => before == [] && after == []
    case Fault => false
  }

  function Trim(forward: bool, s: seq<Entry>): seq<Entry>
    requires s != []
  {
    if forward then s[1..] else s[..|s| - 1]
  }

  lemma EndTaken(forward: bool, rests: seq<seq<Entry>>, t: Tagged)
    requires SourcesSorted(rests) && FromSources(t, rests)
    requires forall x :: FromSources(x, rests) ==> x == t || Beats(forward, t, x)
    ensures rests[t.source] != []
    ensures
      var after := rests[t.source := Trim(forward, rests[t.source])];
      SourcesSorted(after) && Popped(forward, Merged(rests), Item(t), Merged(after))
  {
    hide Merged, SourcesSorted;
    UnbeatenIsEnd(forward, rests, t);
    if forward {
      MergePopFront(rests, t.source);
    } else {
      MergePopBack(rests, t.source);
    }
  }

  /** Taking this direction's leaf and refilling it drops the end of the lane. */
  lemma LaneRefilled(forward: bool, mine: Option<Tagged>, middle: seq<Entry>, theirs: Option<Tagged>, i: nat)
    requires mine.Some?
    ensures
      var (head, rest) := Pull(forward, middle, i);
      var all := LaneOf(forward, mine, middle, theirs).All();
      all != [] && LaneOf(forward, head, rest, theirs).All() == Trim(forward, all)
      && mine.value.entry in all
  {
    var all := LaneOf(forward, mine, middle, theirs).All();
    assert all[if forward then 0 else |all| - 1] == mine.value.entry;
  }

  /** Claiming the parked leaf of an exhausted source empties its lane. */
  lemma LaneClaimed(forward: bool, theirs: Option<Tagged>)
    requires theirs.Some?
    ensures
      var all := LaneOf(forward, None, [], theirs).All();
      all == [theirs.value.entry] && LaneOf(forward, None, [], None).All() == Trim(forward, all)
  {
  }

  /** Two states agree on everything but source `i`. */
  ghost predicate SameBut(s: State, t: State, forward: bool, i: nat) {
    |t.sources| == |s.sources|
    && forall k :: 0 <= k < |s.sources| && k != i ==>
      && t.sources[k] == s.sources[k]
      && PeekSlot(t.At(forward).tree, k) == PeekSlot(s.At(forward).tree, k)
      && PeekSlot(t.At(!forward).tree, k) == PeekSlot(s.At(!forward).tree, k)
  }

  lemma OneLane(s: State, t: State, forward: bool, i: nat)
    requires Ok(s) && Ok(t) && SameBut(s, t, forward, i) && i < |s.sources|
    ensures Rests(LanesOf(t)) == Rests(LanesOf(s))[i := LanesOf(t)[i].All()]
  {
    hide Ok;
    forall k | 0 <= k < |s.sources| && k != i
      ensures LanesOf(t)[k] == LanesOf(s)[k]
    {
      LaneAt(s, forward, k);
      LaneAt(t, forward, k);
    }
  }

  lemma ClaimOk(s: State, forward: bool, slot: nat)
    requires Ok(s) && PeekSlot(s.At(!forward).tree, slot).Some?
    ensures slot < |s.sources| && Ok(Claimed(s, forward, slot))
  {
    hide TreeOk, Put;
    ClaimedSlot(s.At(!forward), |s.sources|, slot);
    PutKeepsOk(!forward, s.At(!forward).tree, |s.sources|, slot, None);
  }

  lemma ClaimSame(s: State, forward: bool, slot: nat)
    requires Ok(s) && slot < |s.At(!forward).tree.leaves|
    ensures SameBut(s, Claimed(s, forward, slot), forward, slot)
  {
    hide AfterPut;
    SameByParts(s, Claimed(s, forward, slot), forward, slot);
  }

  lemma SameByParts(s: State, t: State, forward: bool, i: nat)
    requires |t.sources| == |s.sources| && (i < |s.sources| ==> t.sources == s.sources[i := t.sources[i]])
    requires i >= |s.sources| ==> t.sources == s.sources
    requires SameLeavesBut(s.At(forward).tree.leaves, t.At(forward).tree.leaves, i)
    requires SameLeavesBut(s.At(!forward).tree.leaves, t.At(!forward).tree.leaves, i)
    ensures SameBut(s, t, forward, i)
  {
  }

  ghost predicate SameLeavesBut(a: seq<Option<Tagged>>, b: seq<Option<Tagged>>, i: nat) {
    |a| == |b| && forall k :: 0 <= k < |a| && k != i ==> a[k] == b[k]
  }

  /** Handing out a parked leaf that comes ahead of every end. */
  lemma ClaimStep(s: State, forward: bool, slot: nat, item: Tagged)
    requires Good(s, forward) && s.At(forward).primed && slot in s.At(forward).vacated
    requires PeekSlot(s.At(!forward).tree, slot) == Some(item)
    requires forall i :: 0 <= i < |s.sources| ==> EndBehind(s, forward, item, i)
    ensures Ok(Claimed(s, forward, slot)) && Good(Claimed(s, forward, slot), forward)
    ensures Popped(forward, Contents(s), Item(item), Contents(Claimed(s, forward, slot)))
  {
    hide Tournament, Merged, SourcesSorted, Popped, AfterPut, TreeOk;
    var t, theirs, rests := Claimed(s, forward, slot), s.At(!forward).tree.leaves[slot], Rests(LanesOf(s));
    ClaimOk(s, forward, slot);
    LaneAt(s, forward, slot);
    LaneAt(t, forward, slot);
    LaneClaimed(forward, theirs);
    ClaimSame(s, forward, slot);
    OneLane(s, t, forward, slot);
    UnbeatenEnds(s, forward, item);
    OtherSlotted(s.At(!forward), |s.sources|, slot);
    EndTaken(forward, rests, item);
  }

  lemma AdvanceOk(s: State, forward: bool, parked: Parked)
    requires Ok(s) && s.At(forward).primed && s.At(forward).tree.games[0] < |s.sources|
    ensures Ok(Advanced(s, forward, parked))
  {
    hide TreeOk, Put;
    TreeSizes(s.At(forward).tree, |s.sources|);
    var slot := s.At(forward).tree.games[0];
    PutKeepsOk(forward, s.At(forward).tree, |s.sources|, slot, Pull(forward, s.sources[slot], slot).0);
  }

  lemma AdvanceSame(s: State, forward: bool, parked: Parked)
    requires Ok(s) && s.At(forward).tree.games[0] < |s.sources|
    ensures SameBut(s, Advanced(s, forward, parked), forward, s.At(forward).tree.games[0])
  {
    hide AfterPut;
    var t, slot := Advanced(s, forward, parked), s.At(forward).tree.games[0];
    SameByParts(s, t, forward, slot);
  }

  /** Handing out the winner when it comes ahead of every end. */
  lemma AdvanceStep(s: State, forward: bool, parked: Parked, item: Tagged)
    requires Good(s, forward) && s.At(forward).primed && Present(s.At(forward).tree.leaves) != 0
    requires CacheTrue(forward, s.At(forward).(parked := parked), s.At(!forward).tree)
    requires WinnerOf(s.At(forward).tree) == Some(item)
    requires forall i :: 0 <= i < |s.sources| ==> EndBehind(s, forward, item, i)
    ensures s.At(forward).tree.games[0] < |s.sources| && Ok(Advanced(s, forward, parked))
    ensures Good(Advanced(s, forward, parked), forward)
    ensures Popped(forward, Contents(s), Item(item), Contents(Advanced(s, forward, parked)))
  {
    hide Tournament, Merged, SourcesSorted, Popped, AfterPut, Present, CacheTrue, TreeOk, EndBehind, SameBut;
    WinnerStands(s, forward);
    var mine, rests := s.At(forward).tree, Rests(LanesOf(s));
    var slot := mine.games[0];
    var t, leaf := Advanced(s, forward, parked), mine.leaves[slot];
    StillStanding(s, forward, parked);
    LaneAt(s, forward, slot);
    LaneAt(t, forward, slot);
    LaneRefilled(forward, leaf, s.sources[slot], s.At(!forward).tree.leaves[slot], slot);
    AdvanceSame(s, forward, parked);
    OneLane(s, t, forward, slot);
    UnbeatenEnds(s, forward, leaf.value);
    EndTaken(forward, rests, leaf.value);
  }

  lemma StillStanding(s: State, forward: bool, parked: Parked)
    requires Good(s, forward) && s.At(forward).primed && Present(s.At(forward).tree.leaves) != 0
    requires CacheTrue(forward, s.At(forward).(parked := parked), s.At(!forward).tree)
    ensures s.At(forward).tree.games[0] < |s.sources| && Ok(Advanced(s, forward, parked))
    ensures var t := Advanced(s, forward, parked); Standing(t.sources, forward, t.At(forward), t.At(!forward).tree)
  {
    hide Tournament, Replayed, Present, SourcesSorted;
    WinnerStands(s, forward);
    AdvanceOk(s, forward, parked);
    var mine := s.At(forward).tree;
    var slot := mine.games[0];
    ReplayFromWinner(forward, mine.games, mine.leaves, Pull(forward, s.sources[slot], slot).0);
  }

  /** With a claim, the claimed leaf comes ahead of every end. */
  lemma ClaimLeads(s: State, forward: bool, slot: nat, item: Tagged)
    requires Good(s, forward) && s.At(forward).primed
    requires BestOf(forward, s.At(!forward).tree, s.At(forward).vacated, slot)
    requires WinnerOf(s.At(forward).tree).Some? ==>
               Beats(forward, PeekSlot(s.At(!forward).tree, slot).value, WinnerOf(s.At(forward).tree).value)
    requires PeekSlot(s.At(!forward).tree, slot) == Some(item)
    ensures forall i :: 0 <= i < |s.sources| ==> EndBehind(s, forward, item, i)
  {
    hide Tournament, SourcesSorted, CacheTrue, Present;
    var mine, theirs := s.At(forward).tree, s.At(!forward).tree;
    PresentNone(mine.leaves);
    if Present(mine.leaves) != 0 {
      WinnerStands(s, forward);
    }
  }

  /** Without one, the winner does, and if there is no winner nothing is left. */
  lemma WinnerLeads(s: State, forward: bool)
    requires Good(s, forward) && s.At(forward).primed
    requires forall v :: v in s.At(forward).vacated && PeekSlot(s.At(!forward).tree, v).Some? ==>
               && WinnerOf(s.At(forward).tree).Some?
               && !Beats(forward, PeekSlot(s.At(!forward).tree, v).value, WinnerOf(s.At(forward).tree).value)
    ensures Present(s.At(forward).tree.leaves) != 0 ==>
              && WinnerOf(s.At(forward).tree).Some?
              && forall i :: 0 <= i < |s.sources| ==> EndBehind(s, forward, WinnerOf(s.At(forward).tree).value, i)
    ensures Present(s.At(forward).tree.leaves) == 0 ==> forall i :: 0 <= i < |s.sources| ==> LanesOf(s)[i].All() == []
  {
    hide Tournament, SourcesSorted, CacheTrue, Present;
    PresentNone(s.At(forward).tree.leaves);
    if Present(s.At(forward).tree.leaves) != 0 {
      WinnerStands(s, forward);
    }
  }

  lemma LookedSame(s: State, forward: bool, parked: Parked)
    requires Good(s, forward) && s.At(forward).primed
    requires CacheTrue(forward, s.At(forward).(parked := parked), s.At(!forward).tree)
    ensures Ok(Looked(s, forward, parked)) && Good(Looked(s, forward, parked), forward)
    ensures Contents(Looked(s, forward, parked)) == Contents(s)
  {
    hide Tournament, SourcesSorted, Merged, TreeOk;
    assert LanesOf(Looked(s, forward, parked)) == LanesOf(s);
  }

  lemma NothingIn(rests: seq<seq<Entry>>)
    requires forall i :: 0 <= i < |rests| ==> rests[i] == []
    ensures Merged(rests) == []
  {
    hide Merged;
    MergeExists(rests);
    forall t ensures !FromSources(t, rests) {
    }
    HeadIsMember(Merged(rests));
  }

  lemma HeadIsMember<T>(s: seq<T>)
    ensures s != [] ==> s[0] in s
  {
  }

  /** A pull in a standing direction hands out the end of everything left. */
  lemma TakeRight(s: State, forward: bool)
    requires Good(s, forward) && s.At(forward).primed
    ensures
      var (o, t) := Take(s, forward);
      Ok(t) && Good(t, forward) && Popped(forward, Contents(s), o, Contents(t))
  {
    hide PickParked, Good, WinnerOf, BestOf, CacheTrue, EndBehind, Popped, Contents, Claimed, Advanced, Looked, Present;
    var mine, theirs := s.At(forward), s.At(!forward).tree;
    GoodParts(s, forward);
    PickParkedRight(forward, mine, theirs);
    var (claim, parked) := PickParked(forward, mine, theirs);
    if claim.Some? {
      ClaimRight(s, forward, claim.value);
    } else {
      WinnerLeads(s, forward);
      if Present(mine.tree.leaves) == 0 {
        LookedSame(s, forward, parked);
        EndRight(s, forward);
      } else {
        WinnerAt(s, forward);
        AdvanceStep(s, forward, parked, WinnerOf(mine.tree).value);
      }
    }
  }

  lemma GoodParts(s: State, forward: bool)
    requires Good(s, forward) && s.At(forward).primed
    ensures Ok(s) && CacheTrue(forward, s.At(forward), s.At(!forward).tree)
    ensures |s.At(forward).tree.games| == |s.At(forward).tree.leaves| >= 2
  {
  }

  lemma WinnerAt(s: State, forward: bool)
    requires Good(s, forward) && s.At(forward).primed && Present(s.At(forward).tree.leaves) != 0
    ensures
      var mine := s.At(forward).tree;
      && |mine.games| == |mine.leaves| >= 2 && mine.games[0] < |s.sources| <= |mine.leaves|
      && mine.leaves[mine.games[0]].Some? && WinnerOf(mine) == mine.leaves[mine.games[0]]
  {
    hide Good, Present;
    WinnerStands(s, forward);
  }

  lemma ClaimRight(s: State, forward: bool, slot: nat)
    requires Good(s, forward) && s.At(forward).primed
    requires BestOf(forward, s.At(!forward).tree, s.At(forward).vacated, slot)
    requires WinnerOf(s.At(forward).tree).Some? ==>
               Beats(forward, PeekSlot(s.At(!forward).tree, slot).value, WinnerOf(s.At(forward).tree).value)
    ensures slot < |s.At(!forward).tree.leaves| && s.At(!forward).tree.leaves[slot].Some?
    ensures Ok(Claimed(s, forward, slot)) && Good(Claimed(s, forward, slot), forward)
    ensures Popped(forward, Contents(s), Item(s.At(!forward).tree.leaves[slot].value), Contents(Claimed(s, forward, slot)))
  {
    hide Good, WinnerOf, EndBehind, Popped, Contents, Claimed;
    var item := PeekSlot(s.At(!forward).tree, slot).value;
    ClaimLeads(s, forward, slot, item);
    ClaimStep(s, forward, slot, item);
  }

  lemma EndRight(s: State, forward: bool)
    requires Ok(s) && forall i :: 0 <= i < |s.sources| ==> LanesOf(s)[i].All() == []
    ensures Popped(forward, Contents(s), End, Contents(s))
  {
    hide Merged;
    NothingIn(Rests(LanesOf(s)));
  }

  // --- priming ---

  /** Pulling the heads moves items between the parts of a lane and loses none; a
      slot stays empty only if nothing is left of its source. */
  ghost predicate HeadsOut(forward: bool, sources: seq<seq<Entry>>, theirs: Side, heads: seq<Option<Tagged>>,
                           left: seq<seq<Entry>>, other: Side, k: nat)
    requires k < |sources| == |left| && |sources| <= |theirs.tree.leaves| == |other.tree.leaves|
  {
    if k < |heads| then
      && LaneOf(forward, heads[k], left[k], other.tree.leaves[k]).All() ==
         LaneOf(forward, None, sources[k], theirs.tree.leaves[k]).All()
      && (heads[k].None? ==> left[k] == [])
    else left[k] == sources[k] && other.tree.leaves[k] == theirs.tree.leaves[k]
  }

  lemma HeadKeeps(forward: bool, source: seq<Entry>, other: Side, n: nat, slot: nat)
    requires SideOk(other, n) && slot < n
    ensures
      var (head, rest, after) := PullHead(forward, source, other, n, slot);
      && slot < |other.tree.leaves| == |after.tree.leaves|
      && LaneOf(forward, head, rest, after.tree.leaves[slot]).All() == LaneOf(forward, None, source, other.tree.leaves[slot]).All()
      && (head.None? ==> rest == [])
  {
    hide AfterPut, PowerOfTwo;
  }

  lemma {:induction false} HeadsKeep(forward: bool, sources: seq<seq<Entry>>, theirs: Side, i: nat, k: nat)
    requires i <= |sources| && SideOk(theirs, |sources|) && k < |sources|
    ensures
      var (heads, left, other) := PullHeads(forward, sources, theirs, i);
      |sources| <= |theirs.tree.leaves| && HeadsOut(forward, sources, theirs, heads, left, other, k)
  {
    hide PullHead, LaneOf;
    if i > 0 {
      hide SideOk;
      HeadsKeep(forward, sources, theirs, i - 1, k);
      var (heads, left, other) := PullHeads(forward, sources, theirs, i - 1);
      HeadKeeps(forward, left[i - 1], other, |sources|, i - 1);
    }
  }

  /** Priming loses nothing; a slot stays empty only if its source has run out. */
  lemma PrimedKeeps(s: State, forward: bool)
    requires Ok(s) && !s.At(forward).primed
    ensures Ok(Primed(s, forward)) && Rests(LanesOf(Primed(s, forward))) == Rests(LanesOf(s))
    ensures
      var t := Primed(s, forward);
      forall k :: 0 <= k < |s.sources| && t.At(forward).tree.leaves[k].None? ==> t.sources[k] == []
  {
    hide PullHeads, Subtree, LaneOf, TreeOk;
    var n, t := |s.sources|, Primed(s, forward);
    PrimedOk(s, forward);
    TreesOf(s, forward);
    forall k | 0 <= k < n
      ensures LanesOf(t)[k].All() == LanesOf(s)[k].All()
      ensures t.At(forward).tree.leaves[k].None? ==> t.sources[k] == []
    {
      LaneAt(s, forward, k);
      LaneAt(t, forward, k);
      HeadsKeep(forward, s.sources, s.At(!forward), n, k);
    }
  }

  /** Priming a direction leaves as much as before, and its tournament stands. */
  lemma PrimedRight(s: State, forward: bool)
    requires Good(s, forward) && !s.At(forward).primed
    ensures Ok(Primed(s, forward)) && Good(Primed(s, forward), forward)
    ensures Contents(Primed(s, forward)) == Contents(s)
  {
    hide PullHeads, Merged, SourcesSorted, Subtree, Tournament, TreeOk;
    PrimedOk(s, forward);
    TreesOf(s, forward);
    PrimedGames(s, forward);
    PrimedKeeps(s, forward);
  }

  lemma PrimedGames(s: State, forward: bool)
    requires Ok(s)
    ensures var mine := Primed(s, forward).At(forward).tree; Tournament(forward, mine.games, mine.leaves)
  {
    hide PullHeads, Subtree, Tournament, PowerOfTwo;
    var heads := PullHeads(forward, s.sources, s.At(!forward), |s.sources|).0;
    GamesStand(forward, Padded(heads, |s.At(forward).tree.leaves|), s.At(forward).tree.games);
  }

  /** In a good direction every pull hands out the end of everything left and keeps
      the direction good. The other direction stays unprimed if it was, and an
      unprimed direction is good. */
  lemma StepRight(s: State, forward: bool)
    requires Good(s, forward)
    ensures
      var (o, t) := Step(s, forward);
      && Ok(t) && Good(t, forward) && Popped(forward, Contents(s), o, Contents(t))
      && t.At(forward).primed && t.At(!forward).primed == s.At(!forward).primed
      && (!s.At(!forward).primed ==> Good(t, !forward))
  {
    hide Take, Primed, Popped, Contents;
    StepOk(s, forward);
    if s.At(forward).primed {
      TakeRight(s, forward);
    } else {
      PrimedRight(s, forward);
      PrimedOk(s, forward);
      TakeRight(Primed(s, forward), forward);
    }
  }
}
