/**
 src/seeking_merger.rs: the merger of the read path, with one tournament for each
 direction. Both are allocated with the merger; one that is not primed is empty.
 */
module SeekingMergers {
  import opened Core
  import opened MergeSpec
  import opened LoserTheory
  import opened LoserTrees
  import opened Mergers
  import opened SeekingSteps
  import opened SeekingDeque
  import opened SeekingRuns

  class Direction {
    const tree: LoserTree
    var primed: bool
    var vacated: seq<nat>
    var parked: Parked

    ghost function Repr(): set<object> {
      {this as object, tree, tree.leaves, tree.tree}
    }

    ghost function Value(): Side
      reads Repr()
    {
      Side(Tree(tree.tree[..], tree.leaves[..]), primed, vacated, parked)
    }

    ghost predicate Valid(forward: bool, n: nat)
      reads Repr()
    {
      && tree.Shape() && tree.forward == forward && tree.nSources == n
      && (!primed ==> tree.active == 0)
    }

    constructor (forward: bool, n: nat)
      ensures Valid(forward, n) && fresh(Repr()) && Value() == FreshSide(forward, n)
    {
      var none := seq(n, _ => None);
      var t := new LoserTree(none, forward);
      tree, primed, vacated, parked := t, false, [], Stale;
      new;
      NonePresent(tree.leaves[..]);
      assert tree.leaves[..] == Padded([], GrowTo(2, n));
    }

    /** The best parked leaf, rescanning only when the cache cannot be used. */
    method BestCandidate(forward: bool, theirs: Direction) returns (best: Option<nat>)
      requires this != theirs
      modifies this`parked
      ensures (best, parked) == Candidate(forward, old(Value()), theirs.Value().tree)
    {
      if parked.Best? {
        var leaf := theirs.tree.PeekSlot(parked.slot);
        if leaf.Some? {
          return Some(parked.slot);
        }
      }
      if parked.Empty? {
        return None;
      }
      best := None;
      for i := 0 to |vacated|
        invariant best == BestParked(forward, theirs.Value().tree, vacated[..i])
      {
        assert vacated[..i + 1][..i] == vacated[..i];
        var leaf := theirs.tree.PeekSlot(vacated[i]);
        if leaf.Some? {
          if best.None? {
            best := Some(vacated[i]);
          } else {
            var current := theirs.tree.PeekSlot(best.value);
            if Beats(forward, leaf.value, current.value) {
              best := Some(vacated[i]);
            }
          }
        }
      }
      assert vacated[..|vacated|] == vacated;
      parked := if best.Some? then Best(best.value) else Empty;
    }

    method PickParked(forward: bool, theirs: Direction, ghost n: nat) returns (claim: Option<nat>)
      requires Valid(forward, n) && theirs.Valid(!forward, n) && Repr() !! theirs.Repr()
      modifies this`parked
      ensures |old(Value()).tree.games| == |old(Value()).tree.leaves| >= 2
      ensures (claim, parked) == SeekingSteps.PickParked(forward, old(Value()), theirs.Value().tree)
    {
      hide LoserTree.Shape, Candidate, Present;
      Sizes(this, forward, n);
      Sizes(theirs, !forward, n);
      if vacated == [] || theirs.tree.active == 0 {
        return None;
      }
      var best := BestCandidate(forward, theirs);
      if best.None? {
        return None;
      }
      var leaf := theirs.tree.PeekSlot(best.value);
      var slot := tree.WinnerSlot();
      if slot.Some? {
        var winner := tree.PeekSlot(slot.value);
        if winner.Some? && !Beats(forward, leaf.value, winner.value) {
          return None;
        }
      }
      return best;
    }

    /** Hands out the winner and puts the next item of its source, if there is one. */
    method HandOut(head: Option<Tagged>, ghost forward: bool, ghost n: nat) returns (item: Tagged)
      requires Valid(forward, n) && primed && tree.active > 0 && tree.tree[0] < n && tree.leaves[tree.tree[0]].Some?
      requires head.Some? ==> head.value.source == tree.tree[0]
      modifies Repr()
      ensures Valid(forward, n) && old(SideOk(Value(), n)) && Some(item) == old(tree.leaves[tree.tree[0]])
      ensures
        var after := Put(forward, old(Value().tree), old(tree.tree[0]), head);
        Value() == if head.Some? then Side(after, true, old(vacated), old(parked))
                   else Side(after, true, old(vacated) + [old(tree.tree[0])], Stale)
    {
      hide PowerOfTwo, Present, AfterPut, Tournament, InTree, Slotted;
      ValidSide(this, forward, n);
      if head.Some? {
        item := tree.ReplaceMin(head.value);
      } else {
        var slot := tree.tree[0];
        var popped := tree.PopMin();
        item := popped.value;
        vacated, parked := vacated + [slot], Stale;
      }
    }

    /** Gives up the leaf of a slot to the other direction. */
    method Release(slot: nat, ghost forward: bool, ghost n: nat) returns (leaf: Option<Tagged>)
      requires Valid(forward, n) && slot < n
      modifies Repr()
      ensures Valid(forward, n) && old(SideOk(Value(), n)) && parked == old(parked) && primed == old(primed)
      ensures leaf == old(Value().tree.leaves)[slot]
      ensures leaf.None? ==> Value() == old(Value())
      ensures leaf.Some? ==>
        Value() == old(Value()).(tree := Put(forward, old(Value().tree), slot, None), vacated := old(vacated) + [slot])
    {
      hide PowerOfTwo, Present, AfterPut;
      ValidSide(this, forward, n);
      leaf := tree.TakeSlot(slot);
      if leaf.Some? {
        vacated := vacated + [slot];
      }
    }

    /** Drops what is buffered; the next pull primes again. */
    method Reset(ghost forward: bool, ghost n: nat)
      requires Valid(forward, n)
      modifies this, tree, tree.leaves
      ensures Valid(forward, n) && !primed
    {
      tree.Clear();
      primed, vacated, parked := false, [], Stale;
    }
  }

  lemma Sizes(d: Direction, forward: bool, n: nat)
    requires d.Valid(forward, n)
    ensures |d.Value().tree.games| == |d.Value().tree.leaves| >= 2
    ensures d.tree.active == Present(d.tree.leaves[..])
  {
  }

  lemma ValidSide(d: Direction, forward: bool, n: nat)
    requires d.Valid(forward, n)
    ensures SideOk(d.Value(), n)
  {
    PresentNone(d.tree.leaves[..]);
  }

  class SeekingMerger {
    var sources: seq<seq<Entry>>
    const nSources: nat
    const fwd: Direction
    const bwd: Direction
    ghost const Repr: set<object>

    function At(forward: bool): Direction {
      if forward then fwd else bwd
    }

    ghost predicate Valid()
      reads this, Repr
    {
      && Repr == {this} + fwd.Repr() + bwd.Repr() && |sources| == nSources
      && this !in fwd.Repr() + bwd.Repr() && fwd.Repr() !! bwd.Repr()
      && fwd.Valid(true, |sources|) && bwd.Valid(false, |sources|)
    }

    ghost function State(): State
      reads this, Repr
      requires Valid()
    {
      SeekingSteps.State(sources, fwd.Value(), bwd.Value())
    }

    constructor (sources: seq<seq<Entry>>)
      ensures Valid() && fresh(Repr) && this in Repr && State() == Start(sources) && nSources == |sources|
      ensures SourcesSorted(sources) ==> Untouched(true) && Untouched(false) && Contents() == Entries(Merged(sources))
    {
      hide Merged, SourcesSorted, LoserTree.Shape, NoTree;
      this.sources, nSources := sources, |sources|;
      var f := new Direction(true, |sources|);
      var b := new Direction(false, |sources|);
      fwd, bwd := f, b;
      Repr := {this} + f.Repr() + b.Repr();
      new;
      MergerOk(this);
      NothingBuffered(State());
    }

    /** Pulls the head of one slot, from its source or from the other direction. */
    method PullHead(forward: bool, i: nat) returns (head: Option<Tagged>)
      requires Valid() && i < |sources|
      modifies this`sources, At(!forward).Repr()
      ensures Valid() && |sources| == |old(sources)| && sources == old(sources)[i := sources[i]]
      ensures At(forward).Value() == old(At(forward).Value())
      ensures SideOk(old(At(!forward).Value()), |sources|)
      ensures (head, sources[i], At(!forward).Value()) ==
              SeekingSteps.PullHead(forward, old(sources)[i], old(At(!forward).Value()), |sources|, i)
    {
      hide LoserTree.Shape, SideOk, Put;
      ValidSide(At(!forward), !forward, |sources|);
      var (item, rest) := Pull(forward, sources[i], i);
      if item.Some? {
        sources := sources[i := rest];
        return item;
      }
      head := At(!forward).Release(i, !forward, |sources|);
    }

    method CollectHeads(forward: bool) returns (heads: seq<Option<Tagged>>)
      requires Valid()
      modifies this`sources, At(!forward).Repr()
      ensures Valid() && |sources| == |old(sources)|
      ensures At(forward).Value() == old(At(forward).Value())
      ensures SideOk(old(At(!forward).Value()), |sources|)
      ensures (heads, sources, At(!forward).Value()) ==
              PullHeads(forward, old(sources), old(At(!forward).Value()), |sources|)
    {
      hide LoserTree.Shape, SideOk, SeekingSteps.PullHead;
      ghost var all, theirs := sources, At(!forward).Value();
      ValidSide(At(!forward), !forward, |sources|);
      heads := [];
      for i := 0 to |sources|
        invariant Valid() && |sources| == |all| && At(forward).Value() == old(At(forward).Value())
        invariant (heads, sources, At(!forward).Value()) == PullHeads(forward, all, theirs, i)
      {
        ghost var left := sources;
        var head := PullHead(forward, i);
        assert sources == left[i := sources[i]];
        heads := heads + [head];
      }
    }

    /** Takes a head for every slot and plays this direction's games. */
    method Prime(forward: bool)
      requires Valid() && !At(forward).primed
      modifies Repr
      ensures Valid() && Ok(old(State())) && State() == Primed(old(State()), forward)
    {
      hide LoserTree.Shape, SideOk, PullHeads, AllGames, Vacant;
      MergerOk(this);
      ghost var n, theirs := |sources|, At(!forward).Value();
      HeadsSlotted(forward, sources, theirs, n);
      var heads := CollectHeads(forward);
      Refill(forward, heads);
      At(!forward).parked := Stale;
    }

    method Refill(forward: bool, heads: seq<Option<Tagged>>)
      requires Valid() && |heads| == |sources| && Slotted(heads)
      modifies At(forward).Repr()
      ensures Valid() && At(!forward).Value() == old(At(!forward).Value())
      ensures |old(At(forward).Value()).tree.games| == |old(At(forward).Value()).tree.leaves| >= 2
      ensures PowerOfTwo(|old(At(forward).Value()).tree.leaves|) && |sources| <= |old(At(forward).Value()).tree.leaves|
      ensures
        var leaves := Padded(heads, |old(At(forward).Value()).tree.leaves|);
        At(forward).Value() ==
        Side(Tree(AllGames(forward, leaves, old(At(forward).Value()).tree.games), leaves), true, Vacant(leaves, |sources|), Stale)
    {
      hide Subtree, Present, Tournament;
      var mine := At(forward);
      mine.tree.RefillWith(heads);
      mine.primed, mine.vacated, mine.parked := true, Vacant(mine.tree.leaves[..], |sources|), Stale;
    }

    /** Hands out the winner, if it is there, and refills or vacates its slot. */
    method Advance(forward: bool, ghost before: State) returns (o: Outcome)
      requires Valid() && Ok(before) && At(forward).primed && At(forward).tree.active > 0
      requires State() == Looked(before, forward, At(forward).parked)
      modifies this`sources, At(forward).Repr()
      ensures Valid()
      ensures
        var slot := before.At(forward).tree.games[0];
        if slot >= |before.sources| || before.At(forward).tree.leaves[slot].None? then o == Fault && State() == old(State())
        else o == Item(before.At(forward).tree.leaves[slot].value) && State() == Advanced(before, forward, old(At(forward).parked))
    {
      hide PowerOfTwo, Present, Put, Tournament, InTree, Slotted;
      var mine := At(forward);
      var slot := mine.tree.tree[0];
      if slot >= |sources| || mine.tree.leaves[slot].None? {
        return Fault;
      }
      var (head, rest) := Pull(forward, sources[slot], slot);
      sources := sources[slot := rest];
      var item := mine.HandOut(head, forward, |sources|);
      o := Item(item);
    }

    /** One pull in a primed direction. */
    method Take(forward: bool) returns (o: Outcome)
      requires Valid() && At(forward).primed
      modifies Repr
      ensures Valid() && Ok(old(State())) && (o, State()) == SeekingSteps.Take(old(State()), forward)
    {
      hide LoserTree.Shape, SideOk, SeekingSteps.PickParked, Claimed, Advanced, Present;
      MergerOk(this);
      ghost var before := State();
      var claim := PickLeaf(forward);
      Sizes(At(forward), forward, |sources|);
      if claim.Some? {
        o := Claim(forward, claim.value, before);
      } else if At(forward).tree.active == 0 {
        o := End;
      } else {
        o := Advance(forward, before);
      }
    }

    /** Looks for a parked leaf to claim; only the caches change. */
    method PickLeaf(forward: bool) returns (claim: Option<nat>)
      requires Valid()
      modifies fwd`parked, bwd`parked
      ensures Valid() && Ok(old(State())) && SizesOk(old(State()), forward)
      ensures
        var (c, parked) := SeekingSteps.PickParked(forward, old(State()).At(forward), old(State()).At(!forward).tree);
        claim == c && State() == Looked(old(State()), forward, parked)
    {
      hide LoserTree.Shape, SideOk, SeekingSteps.PickParked, Present;
      MergerOk(this);
      Sizes(At(forward), forward, |sources|);
      At(!forward).parked := Stale;
      claim := At(forward).PickParked(forward, At(!forward), |sources|);
    }

    /** Hands out a parked leaf. */
    method Claim(forward: bool, slot: nat, ghost before: State) returns (o: Outcome)
      requires Valid() && Ok(before) && PeekSlot(before.At(!forward).tree, slot).Some?
      requires exists parked :: State() == Looked(before, forward, parked)
      modifies Repr
      ensures Valid() && o == Item(before.At(!forward).tree.leaves[slot].value) && State() == Claimed(before, forward, slot)
    {
      hide LoserTree.Shape, SideOk, Put;
      var theirs := At(!forward);
      ClaimedSlot(before.At(!forward), |sources|, slot);
      var leaf := theirs.Release(slot, !forward, |sources|);
      At(forward).parked := Stale;
      o := Item(leaf.value);
    }

    /** `next` for the front and `next_back` for the back. */
    method PullEnd(forward: bool) returns (o: Outcome)
      requires Valid()
      modifies Repr
      ensures Valid() && Ok(old(State())) && (o, State()) == Step(old(State()), forward)
    {
      hide SeekingSteps.Take, Primed, Ok, Direction.Valid;
      MergerOk(this);
      PrimedOk(State(), forward);
      if !At(forward).primed {
        Prime(forward);
      }
      o := Take(forward);
    }

    /** Repositions every source and drops what both directions buffer. */
    method Reseek(positioned: seq<seq<Entry>>)
      requires Valid() && |positioned| == nSources
      modifies Repr
      ensures Valid() && sources == positioned
      ensures SourcesSorted(positioned) ==> Untouched(true) && Untouched(false) && Contents() == Entries(Merged(positioned))
    {
      hide Merged, SourcesSorted, LoserTree.Shape;
      sources := positioned;
      fwd.Reset(true, |sources|);
      bwd.Reset(false, |sources|);
      MergerOk(this);
      NothingBuffered(State());
    }

    /** Any sequence of calls, up to a fault. */
    method RunAll(calls: seq<bool>) returns (out: seq<Outcome>)
      requires Valid()
      modifies Repr
      ensures Valid() && Ok(old(State())) && out == Run(old(State()), calls)
    {
      hide Step, Direction.Valid;
      MergerOk(this);
      out := [];
      ghost var all := Run(State(), calls);
      for i := 0 to |calls|
        invariant Valid() && Ok(State()) && all == out + Run(State(), calls[i..])
      {
        StepOk(State(), calls[i]);
        var o := PullEnd(calls[i]);
        out := out + [o];
        if o == Fault {
          return;
        }
      }
    }

    // --- as a deque of entries ---

    /** What is left of the merge. */
    ghost function Contents(): seq<Entry>
      requires Valid()
      reads this, Repr
    {
      MergerOk(this);
      Entries(SeekingDeque.Contents(State()))
    }

    /** A pull in this direction hands out the right item. */
    ghost predicate Fit(forward: bool)
      requires Valid()
      reads this, Repr
    {
      Good(State(), forward)
    }

    /** Fit, and not pulled since the merger was positioned. */
    ghost predicate Untouched(forward: bool): (r: bool)
      requires Valid()
      reads this, Repr
      ensures r ==> Fit(forward)
    {
      !At(forward).primed && Fit(forward)
    }

    /** As long as the direction is fit a pull takes the end of what is left, and it
        stays fit. The other direction stays untouched if it was. */
    method PullEntry(forward: bool) returns (r: Option<Entry>)
      requires Valid() && Fit(forward)
      modifies Repr
      ensures Valid() && Fit(forward)
      ensures PoppedEnd(forward, old(Contents()), r, Contents())
      ensures old(Untouched(!forward)) ==> Untouched(!forward)
    {
      hide Step, Good, SeekingDeque.Contents, Popped, Direction.Valid;
      ghost var before := State();
      MergerOk(this);
      StepRight(before, forward);
      var o := PullEnd(forward);
      EntriesPopped(forward, SeekingDeque.Contents(before), o, SeekingDeque.Contents(State()));
      r := if o.Item? then Some(o.item.entry) else None;
    }
  }

  ghost predicate SizesOk(s: State, forward: bool) {
    |s.At(forward).tree.games| == |s.At(forward).tree.leaves| >= 2
  }

  lemma EntriesPopped(forward: bool, before: seq<Tagged>, o: Outcome, after: seq<Tagged>)
    requires Popped(forward, before, o, after)
    ensures o != Fault && PoppedEnd(forward, Entries(before), if o.Item? then Some(o.item.entry) else None, Entries(after))
  {
    EntriesPop(forward, before, if o.Item? then Some(o.item) else None, after);
  }

  lemma NothingBuffered(s: State)
    requires Ok(s) && !s.fwd.primed && !s.bwd.primed
    ensures Rests(LanesOf(s)) == s.sources
  {
    forall i | 0 <= i < |s.sources| ensures LanesOf(s)[i].All() == s.sources[i] {
      assert LanesOf(s)[i] == Lane(None, s.sources[i], None);
    }
  }

  lemma MergerOk(m: SeekingMerger)
    requires m.Valid()
    ensures Ok(m.State())
  {
    ValidSide(m.fwd, true, |m.sources|);
    ValidSide(m.bwd, false, |m.sources|);
  }
}
