/**
 src/seeking_merger.rs: one pull of the two-tournament merger, on values. Every
 branch of the code is here, also those it takes in states where its tournaments no
 longer stand.
 */
module SeekingSteps {
  import opened Core
  import opened MergeSpec
  import opened LoserTheory
  import opened LoserTrees

  datatype Tree = Tree(games: seq<nat>, leaves: seq<Option<Tagged>>)

  /** The memoized best parked leaf. */
  datatype Parked = Stale | Empty | Best(slot: nat)

  /** One direction: its tournament, whether it reflects the current position, the
      slots emptied since it was primed, and its best parked candidate. */
  datatype Side = Side(tree: Tree, primed: bool, vacated: seq<nat>, parked: Parked)

  datatype State = State(sources: seq<seq<Entry>>, fwd: Side, bwd: Side) {
    function At(forward: bool): Side {
      if forward then fwd else bwd
    }

    function With(forward: bool, mine: Side, theirs: Side): State {
      if forward then this.(fwd := mine, bwd := theirs) else this.(fwd := theirs, bwd := mine)
    }
  }

  /** `Fault`: the tournament elected an absent leaf, which fails the code's debug
      assertion and without it reads an uninitialised leaf. */
  datatype Outcome = Item(item: Tagged) | End | Fault

  ghost predicate TreeOk(t: Tree, n: nat) {
    && |t.games| == |t.leaves| >= 2 && n <= |t.leaves| && PowerOfTwo(|t.leaves|)
    && InTree(t.games) && Slotted(t.leaves)
    && (forall i :: n <= i < |t.leaves| ==> t.leaves[i].None?)
  }

  ghost predicate SideOk(side: Side, n: nat) {
    && TreeOk(side.tree, n)
    && (!side.primed ==> forall i :: 0 <= i < |side.tree.leaves| ==> side.tree.leaves[i].None?)
  }

  ghost predicate Ok(s: State) {
    SideOk(s.fwd, |s.sources|) && SideOk(s.bwd, |s.sources|)
  }

  function PeekSlot(t: Tree, slot: nat): Option<Tagged> {
    if slot < |t.leaves| then t.leaves[slot] else None
  }

  /** A tree with the leaf of a slot replaced and its path replayed. */
  function Put(forward: bool, t: Tree, slot: nat, v: Option<Tagged>): Tree
    requires |t.games| == |t.leaves| > 1 && slot < |t.leaves| && InTree(t.games)
  {
    Tree(AfterPut(forward, t.games, t.leaves, slot, v), t.leaves[slot := v])
  }

  /** A source with its next item in this direction taken, if it has one. */
  function Pull(forward: bool, s: seq<Entry>, slot: nat): (Option<Tagged>, seq<Entry>) {
    if s == [] then (None, [])
    else if forward then (Some(Tagged(slot, s[0])), s[1..])
    else (Some(Tagged(slot, s[|s| - 1])), s[..|s| - 1])
  }

  // --- priming a direction ---

  /** The head of one slot. A source that is exhausted in this direction takes over
      the leaf the other tournament still holds for it. */
  function PullHead(forward: bool, source: seq<Entry>, other: Side, n: nat, slot: nat)
    : (r: (Option<Tagged>, seq<Entry>, Side))
    requires SideOk(other, n) && slot < n
    ensures SideOk(r.2, n) && r.2.primed == other.primed && |r.2.tree.leaves| == |other.tree.leaves|
    ensures r.2.tree.leaves == other.tree.leaves || r.2.tree.leaves == other.tree.leaves[slot := None]
    ensures r.0.Some? ==> r.0.value.source == slot
  {
    var (head, rest) := Pull(forward, source, slot);
    if head.Some? || other.tree.leaves[slot].None? then (head, rest, other)
    else
      PutKeepsOk(!forward, other.tree, n, slot, None);
      (other.tree.leaves[slot], rest,
       other.(tree := Put(!forward, other.tree, slot, None), vacated := other.vacated + [slot]))
  }

  /** The heads of the first `i` slots. */
  function PullHeads(forward: bool, sources: seq<seq<Entry>>, theirs: Side, i: nat)
    : (r: (seq<Option<Tagged>>, seq<seq<Entry>>, Side))
    requires i <= |sources| && SideOk(theirs, |sources|)
    ensures |r.0| == i && |r.1| == |sources| && SideOk(r.2, |sources|) && r.2.primed == theirs.primed
    ensures |r.2.tree.leaves| == |theirs.tree.leaves|
  {
    hide SideOk, PullHead;
    if i == 0 then ([], sources, theirs)
    else
      var (heads, left, other) := PullHeads(forward, sources, theirs, i - 1);
      var (head, rest, after) := PullHead(forward, left[i - 1], other, |sources|, i - 1);
      (heads + [head], left[i - 1 := rest], after)
  }

  /** The slots below `n` without a leaf. */
  function Vacant(leaves: seq<Option<Tagged>>, n: nat): (r: seq<nat>)
    requires n <= |leaves|
    ensures forall i :: i in r <==> 0 <= i < n && leaves[i].None?
  {
    if n == 0 then []
    else if leaves[n - 1].None? then Vacant(leaves, n - 1) + [n - 1]
    else Vacant(leaves, n - 1)
  }

  function Primed(s: State, forward: bool): State
    requires Ok(s)
  {
    var n, mine := |s.sources|, s.At(forward);
    var (heads, left, theirs) := PullHeads(forward, s.sources, s.At(!forward), n);
    var leaves := Padded(heads, |mine.tree.leaves|);
    var tree := Tree(AllGames(forward, leaves, mine.tree.games), leaves);
    s.(sources := left).With(forward, Side(tree, true, Vacant(leaves, n), Stale), theirs.(parked := Stale))
  }

  // --- parked leaves ---

  /** The first of the parked leaves of some slots, in this direction's order. */
  function BestParked(forward: bool, theirs: Tree, vacated: seq<nat>): (r: Option<nat>)
    ensures r.Some? ==> r.value in vacated && PeekSlot(theirs, r.value).Some?
  {
    if vacated == [] then None
    else
      var best, slot := BestParked(forward, theirs, vacated[..|vacated| - 1]), vacated[|vacated| - 1];
      var parked := PeekSlot(theirs, slot);
      if parked.None? then best
      else if best.None? || Beats(forward, parked.value, PeekSlot(theirs, best.value).value) then Some(slot)
      else best
  }

  /** The best parked candidate, from the cache where it may be used. */
  function Candidate(forward: bool, mine: Side, theirs: Tree): (r: (Option<nat>, Parked))
    ensures r.0.Some? ==> PeekSlot(theirs, r.0.value).Some?
  {
    if mine.parked.Best? && PeekSlot(theirs, mine.parked.slot).Some? then (Some(mine.parked.slot), mine.parked)
    else if mine.parked.Empty? then (None, Empty)
    else
      var best := BestParked(forward, theirs, mine.vacated);
      (best, if best.Some? then Best(best.value) else Empty)
  }

  /** The parked leaf to claim, if it goes ahead of this tournament's own winner. */
  function PickParked(forward: bool, mine: Side, theirs: Tree): (r: (Option<nat>, Parked))
    requires |mine.tree.games| == |mine.tree.leaves| >= 2
    ensures r.0.Some? ==> PeekSlot(theirs, r.0.value).Some?
  {
    if mine.vacated == [] || Present(theirs.leaves) == 0 then (None, mine.parked)
    else
      var (best, parked) := Candidate(forward, mine, theirs);
      var winner := if Present(mine.tree.leaves) == 0 then None else PeekSlot(mine.tree, mine.tree.games[0]);
      var ahead := best.Some? && (winner.None? || Beats(forward, PeekSlot(theirs, best.value).value, winner.value));
      (if ahead then best else None, parked)
  }

  // --- one pull ---

  /** Only the caches change. */
  function Looked(s: State, forward: bool, parked: Parked): State {
    s.With(forward, s.At(forward).(parked := parked), s.At(!forward).(parked := Stale))
  }

  /** The parked leaf of `slot` is handed out. */
  function Claimed(s: State, forward: bool, slot: nat): State
    requires Ok(s) && slot < |s.At(!forward).tree.leaves|
  {
    var theirs := s.At(!forward);
    s.With(forward, s.At(forward).(parked := Stale),
           Side(Put(!forward, theirs.tree, slot, None), theirs.primed, theirs.vacated + [slot], Stale))
  }

  /** The winner is handed out and its slot refilled, or vacated. */
  function Advanced(s: State, forward: bool, parked: Parked): State
    requires Ok(s) && s.At(forward).tree.games[0] < |s.sources|
  {
    var mine := s.At(forward);
    var slot := mine.tree.games[0];
    var (head, rest) := Pull(forward, s.sources[slot], slot);
    var tree := Put(forward, mine.tree, slot, head);
    var after := if head.Some? then Side(tree, mine.primed, mine.vacated, parked)
                 else Side(tree, mine.primed, mine.vacated + [slot], Stale);
    s.(sources := s.sources[slot := rest]).With(forward, after, s.At(!forward).(parked := Stale))
  }

  /** Claims a parked leaf, or hands out the winner. */
  function Take(s: State, forward: bool): (Outcome, State)
    requires Ok(s)
  {
    var mine, theirs := s.At(forward), s.At(!forward);
    var (claim, parked) := PickParked(forward, mine, theirs.tree);
    if claim.Some? then (Item(theirs.tree.leaves[claim.value].value), Claimed(s, forward, claim.value))
    else if Present(mine.tree.leaves) == 0 then (End, Looked(s, forward, parked))
    else
      var slot := mine.tree.games[0];
      if slot >= |s.sources| || mine.tree.leaves[slot].None? then (Fault, Looked(s, forward, parked))
      else (Item(mine.tree.leaves[slot].value), Advanced(s, forward, parked))
  }

  function Step(s: State, forward: bool): (Outcome, State)
    requires Ok(s)
  {
    if s.At(forward).primed then Take(s, forward)
    else
      PrimedOk(s, forward);
      Take(Primed(s, forward), forward)
  }

  // --- states stay well-formed ---

  lemma PutKeepsOk(forward: bool, t: Tree, n: nat, slot: nat, v: Option<Tagged>)
    requires TreeOk(t, n) && slot < n && (v.Some? ==> v.value.source == slot)
    ensures TreeOk(Put(forward, t, slot, v), n) && |Put(forward, t, slot, v).leaves| == |t.leaves|
  {
    hide PowerOfTwo, Replayed;
    ReplayInTree(forward, t.games, t.leaves[slot := v], (|t.games| + slot) / 2, slot);
  }

  /** Heads sit in their own slots. */
  lemma {:induction false} HeadsSlotted(forward: bool, sources: seq<seq<Entry>>, theirs: Side, i: nat)
    requires i <= |sources| && SideOk(theirs, |sources|)
    ensures Slotted(PullHeads(forward, sources, theirs, i).0)
  {
    if i > 0 {
      hide SideOk, PullHead;
      HeadsSlotted(forward, sources, theirs, i - 1);
    }
  }

  lemma OtherSlotted(side: Side, n: nat, i: nat)
    requires SideOk(side, n) && i < n
    ensures |side.tree.leaves| > i && (side.tree.leaves[i].Some? ==> side.tree.leaves[i].value.source == i)
    ensures |side.tree.games| == |side.tree.leaves| > 1 && InTree(side.tree.games)
  {
  }

  lemma PrimedOk(s: State, forward: bool)
    requires Ok(s)
    ensures Ok(Primed(s, forward)) && Primed(s, forward).At(forward).primed
    ensures Primed(s, forward).At(!forward).primed == s.At(!forward).primed
    ensures |Primed(s, forward).sources| == |s.sources|
  {
    hide PullHeads, Subtree, Tournament, PowerOfTwo;
    var n, mine := |s.sources|, s.At(forward);
    var heads := PullHeads(forward, s.sources, s.At(!forward), n).0;
    HeadsSlotted(forward, s.sources, s.At(!forward), n);
    GamesStand(forward, Padded(heads, |mine.tree.leaves|), mine.tree.games);
  }

  lemma ClaimedSlot(side: Side, n: nat, slot: nat)
    requires SideOk(side, n) && PeekSlot(side.tree, slot).Some?
    ensures slot < n && side.primed
  {
  }

  lemma TakeOk(s: State, forward: bool)
    requires Ok(s) && s.At(forward).primed
    ensures Ok(Take(s, forward).1) && |Take(s, forward).1.sources| == |s.sources|
    ensures Take(s, forward).1.At(forward).primed
    ensures Take(s, forward).1.At(!forward).primed == s.At(!forward).primed
  {
    hide PickParked, AfterPut, Present, TreeOk;
    var n, mine, theirs := |s.sources|, s.At(forward), s.At(!forward);
    TreeSizes(mine.tree, n);
    var (claim, parked) := PickParked(forward, mine, theirs.tree);
    if claim.Some? {
      ClaimedSlot(theirs, n, claim.value);
      PutKeepsOk(!forward, theirs.tree, n, claim.value, None);
    } else {
      var slot := mine.tree.games[0];
      if slot < n {
        PutKeepsOk(forward, mine.tree, n, slot, Pull(forward, s.sources[slot], slot).0);
      }
    }
  }

  lemma TreeSizes(t: Tree, n: nat)
    requires TreeOk(t, n)
    ensures |t.games| == |t.leaves| >= 2 && n <= |t.leaves|
  {
  }

  lemma StepOk(s: State, forward: bool)
    requires Ok(s)
    ensures Ok(Step(s, forward).1) && |Step(s, forward).1.sources| == |s.sources|
    ensures Step(s, forward).1.At(forward).primed
    ensures Step(s, forward).1.At(!forward).primed == s.At(!forward).primed
  {
    hide Take, Primed, Ok;
    if s.At(forward).primed {
      TakeOk(s, forward);
    } else {
      PrimedOk(s, forward);
      TakeOk(Primed(s, forward), forward);
    }
  }
}
