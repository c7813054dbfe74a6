/** What a merger holds, whether or not its tournaments stand: no pull loses an entry
    or hands one out twice. */
module SeekingHoldings {
  import opened Core
  import opened MergeSpec
  import opened LoserTrees
  import opened Mergers
  import opened SeekingSteps
  import opened SeekingDeque
  import opened SeekingRuns

  function Bag(rests: seq<seq<Entry>>, n: nat): multiset<Entry>
    requires n <= |rests|
  {
    if n == 0 then multiset{} else Bag(rests, n - 1) + multiset(rests[n - 1])
  }

  /** The entries still in the sources or in a leaf. */
  function Holdings(s: State): multiset<Entry>
    requires Ok(s)
  {
    Bag(Rests(LanesOf(s)), |s.sources|)
  }

  lemma {:induction false} BagOne(a: seq<seq<Entry>>, b: seq<seq<Entry>>, n: nat, k: nat, e: Entry)
    requires |a| == |b| && n <= |a| && k < |a| && b == a[k := b[k]]
    requires multiset(a[k]) == multiset(b[k]) + multiset([e])
    ensures k < n ==> Bag(a, n) == Bag(b, n) + multiset([e])
    ensures k >= n ==> Bag(a, n) == Bag(b, n)
  {
    if n > 0 {
      BagOne(a, b, n - 1, k, e);
    }
  }

  lemma TrimOne(forward: bool, s: seq<Entry>)
    requires s != []
    ensures multiset(s) == multiset(Trim(forward, s)) + multiset([s[if forward then 0 else |s| - 1]])
  {
    assert s == if forward then [s[0]] + s[1..] else s[..|s| - 1] + [s[|s| - 1]];
  }

  lemma LaneReleased(forward: bool, mine: Option<Tagged>, middle: seq<Entry>, theirs: Tagged)
    ensures multiset(LaneOf(forward, mine, middle, Some(theirs)).All()) ==
            multiset(LaneOf(forward, mine, middle, None).All()) + multiset([theirs.entry])
  {
    TrimOne(!forward, LaneOf(forward, mine, middle, Some(theirs)).All());
  }

  lemma ClaimConserves(s: State, forward: bool, slot: nat)
    requires Ok(s) && PeekSlot(s.At(!forward).tree, slot).Some?
    ensures slot < |s.sources| && Ok(Claimed(s, forward, slot))
    ensures Holdings(s) == Holdings(Claimed(s, forward, slot)) + multiset([PeekSlot(s.At(!forward).tree, slot).value.entry])
  {
    hide TreeOk, AfterPut, SameBut, Bag;
    var t := Claimed(s, forward, slot);
    ClaimOk(s, forward, slot);
    LaneAt(s, forward, slot);
    LaneAt(t, forward, slot);
    ClaimSame(s, forward, slot);
    OneLane(s, t, forward, slot);
    var theirs := s.At(!forward).tree.leaves[slot].value;
    LaneReleased(forward, s.At(forward).tree.leaves[slot], s.sources[slot], theirs);
    BagOne(Rests(LanesOf(s)), Rests(LanesOf(t)), |s.sources|, slot, theirs.entry);
  }

  lemma LaneEnd(forward: bool, mine: Option<Tagged>, middle: seq<Entry>, theirs: Option<Tagged>)
    requires mine.Some?
    ensures
      var all := LaneOf(forward, mine, middle, theirs).All();
      all != [] && all[if forward then 0 else |all| - 1] == mine.value.entry
  {
  }

  /** The winner leaves the end of its lane. */
  lemma AdvanceTrims(s: State, forward: bool, parked: Parked, slot: nat, leaf: Tagged)
    requires Ok(s) && s.At(forward).primed && slot < |s.sources| && s.At(forward).tree.games[0] == slot
    requires PeekSlot(s.At(forward).tree, slot) == Some(leaf)
    ensures Ok(Advanced(s, forward, parked))
    ensures
      var all := Rests(LanesOf(s))[slot];
      && all != [] && all[if forward then 0 else |all| - 1] == leaf.entry
      && Rests(LanesOf(Advanced(s, forward, parked))) == Rests(LanesOf(s))[slot := Trim(forward, all)]
  {
    hide TreeOk, AfterPut, SameBut, LaneOf;
    var t := Advanced(s, forward, parked);
    AdvanceOk(s, forward, parked);
    LaneAt(s, forward, slot);
    LaneAt(t, forward, slot);
    AdvanceSame(s, forward, parked);
    OneLane(s, t, forward, slot);
    var theirs := s.At(!forward).tree.leaves[slot];
    LaneRefilled(forward, Some(leaf), s.sources[slot], theirs, slot);
    LaneEnd(forward, Some(leaf), s.sources[slot], theirs);
  }

  lemma AdvanceConserves(s: State, forward: bool, parked: Parked, slot: nat, leaf: Tagged)
    requires Ok(s) && s.At(forward).primed && slot < |s.sources| && s.At(forward).tree.games[0] == slot
    requires PeekSlot(s.At(forward).tree, slot) == Some(leaf)
    ensures Ok(Advanced(s, forward, parked))
    ensures Holdings(s) == Holdings(Advanced(s, forward, parked)) + multiset([leaf.entry])
  {
    hide Ok, Advanced, Bag, LanesOf;
    AdvanceTrims(s, forward, parked, slot, leaf);
    var t := Advanced(s, forward, parked);
    TrimOne(forward, Rests(LanesOf(s))[slot]);
    BagOne(Rests(LanesOf(s)), Rests(LanesOf(t)), |s.sources|, slot, leaf.entry);
  }

  lemma LookedHolds(s: State, forward: bool, parked: Parked)
    requires Ok(s)
    ensures Ok(Looked(s, forward, parked)) && Holdings(Looked(s, forward, parked)) == Holdings(s)
  {
    hide TreeOk, Bag;
    assert LanesOf(Looked(s, forward, parked)) == LanesOf(s);
  }

  lemma PrimedHolds(s: State, forward: bool)
    requires Ok(s) && !s.At(forward).primed
    ensures Ok(Primed(s, forward)) && Holdings(Primed(s, forward)) == Holdings(s)
  {
    hide Primed, Bag, Ok;
    PrimedOk(s, forward);
    PrimedKeeps(s, forward);
  }

  /** What a pull hands out is what the merger no longer holds. */
  ghost predicate Conserved(before: multiset<Entry>, o: Outcome, after: multiset<Entry>) {
    before == after + if o.Item? then multiset{o.item.entry} else multiset{}
  }

  lemma TakeConserves(s: State, forward: bool)
    requires Ok(s) && s.At(forward).primed
    ensures
      var (o, t) := Take(s, forward);
      Ok(t) && Conserved(Holdings(s), o, Holdings(t))
  {
    hide PickParked, Claimed, Advanced, Looked, Present, TreeOk, Holdings;
    var n, mine, theirs := |s.sources|, s.At(forward), s.At(!forward);
    TreeSizes(mine.tree, n);
    var (claim, parked) := PickParked(forward, mine, theirs.tree);
    LookedHolds(s, forward, parked);
    if claim.Some? {
      ClaimConserves(s, forward, claim.value);
    } else {
      var slot := mine.tree.games[0];
      if slot < n && PeekSlot(mine.tree, slot).Some? {
        AdvanceConserves(s, forward, parked, slot, mine.tree.leaves[slot].value);
      }
    }
  }

  /** In every state, also when a tournament elects an absent leaf, a pull hands out an
      entry the merger holds and drops exactly that one. */
  lemma StepConserves(s: State, forward: bool)
    requires Ok(s)
    ensures
      var (o, t) := Step(s, forward);
      Ok(t) && Conserved(Holdings(s), o, Holdings(t))
  {
    hide Take, Primed, Holdings, Conserved;
    if s.At(forward).primed {
      TakeConserves(s, forward);
    } else {
      PrimedOk(s, forward);
      PrimedHolds(s, forward);
      TakeConserves(Primed(s, forward), forward);
    }
  }

  /** The entries a run hands out. */
  function HandedOut(run: seq<Outcome>): multiset<Entry> {
    if run == [] then multiset{}
    else (if run[0].Item? then multiset{run[0].item.entry} else multiset{}) + HandedOut(run[1..])
  }

  lemma {:induction false} RunConserves(s: State, calls: seq<bool>)
    requires Ok(s)
    ensures HandedOut(Run(s, calls)) <= Holdings(s)
    decreases |calls|
  {
    hide Step, Holdings;
    if calls != [] {
      StepConserves(s, calls[0]);
      var (o, t) := Step(s, calls[0]);
      if o == Fault {
        assert HandedOut([Fault]) == multiset{};
      } else {
        RunConserves(t, calls[1..]);
        var rest := Run(t, calls[1..]);
        assert ([o] + rest)[1..] == rest;
      }
    }
  }

  /** However the calls turn, no entry is handed out more often than the sources hold
      it: what fails is the order and the absent leaf, never a duplicate. */
  lemma NothingTwice(sources: seq<seq<Entry>>, calls: seq<bool>)
    ensures Ok(Start(sources))
    ensures HandedOut(Run(Start(sources), calls)) <= Bag(sources, |sources|)
  {
    hide Bag, Run;
    StartOk(sources);
    RunConserves(Start(sources), calls);
  }
}
