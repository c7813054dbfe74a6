/**
 Whole runs of the two-tournament merger: it is a deque of the merge exactly for the
 call patterns that change direction at most once.
 */
module SeekingRuns {
  import opened Core
  import opened MergeSpec
  import opened LoserTheory
  import opened LoserTrees
  import opened Mergers
  import opened SeekingSteps
  import opened SeekingDeque

  // --- runs ---

  function NoTree(forward: bool, n: nat): Tree {
    var leaves := Padded([], GrowTo(2, n));
    Tree(AllGames(forward, leaves, seq(GrowTo(2, n), _ => 0)), leaves)
  }

  function FreshSide(forward: bool, n: nat): Side {
    Side(NoTree(forward, n), false, [], Stale)
  }

  function Start(sources: seq<seq<Entry>>): State {
    State(sources, FreshSide(true, |sources|), FreshSide(false, |sources|))
  }

  lemma StartOk(sources: seq<seq<Entry>>)
    ensures Ok(Start(sources))
    ensures Rests(LanesOf(Start(sources))) == sources
  {
    hide Subtree, Tournament;
    var cap := GrowTo(2, |sources|);
    GamesStand(true, Padded([], cap), seq(cap, _ => 0));
    GamesStand(false, Padded([], cap), seq(cap, _ => 0));
    forall i | 0 <= i < |sources| ensures LanesOf(Start(sources))[i].All() == sources[i] {
      assert LanesOf(Start(sources))[i] == Lane(None, sources[i], None);
    }
  }

  /** What a sequence of calls, `true` for the front, hands out. A fault ends it. */
  function Run(s: State, calls: seq<bool>): seq<Outcome>
    requires Ok(s)
    decreases |calls|
  {
    if calls == [] then []
    else
      StepOk(s, calls[0]);
      var (o, t) := Step(s, calls[0]);
      if o == Fault then [Fault] else [o] + Run(t, calls[1..])
  }

  /** The answers of a deque, as outcomes. */
  function Outcomes(answers: seq<Option<Tagged>>): seq<Outcome> {
    if answers == [] then []
    else [if answers[0].Some? then Item(answers[0].value) else End] + Outcomes(answers[1..])
  }

  /** How often the direction changes. */
  function Turns(calls: seq<bool>): nat {
    if |calls| < 2 then 0 else Turns(calls[1..]) + if calls[0] != calls[1] then 1 else 0
  }

  // --- at most one turn ---

  lemma {:induction false} RunIsDeque(s: State, calls: seq<bool>)
    requires calls != [] && Good(s, calls[0])
    requires Turns(calls) == 0 || (Turns(calls) == 1 && !s.At(!calls[0]).primed)
    ensures Run(s, calls) == Outcomes(Served(Contents(s), calls))
    decreases |calls|
  {
    hide Step, Good, Contents, Served, Popped, Outcomes;
    var forward, rest := calls[0], calls[1..];
    assert Ok(s) by { GoodIsOk(s, forward); }
    StepRight(s, forward);
    StepOk(s, forward);
    var (o, t) := Step(s, forward);
    ServedOutcome(Contents(s), o, Contents(t), calls);
    if rest != [] {
      RunIsDeque(t, rest);
    } else {
      ServedNothing(Contents(t));
      assert Outcomes([]) == [] && Run(t, []) == [] by { NothingCalled(t); }
    }
  }

  lemma NothingCalled(s: State)
    requires Ok(s)
    ensures Outcomes([]) == [] && Run(s, []) == []
  {
  }

  lemma ServedOutcome(before: seq<Tagged>, o: Outcome, after: seq<Tagged>, calls: seq<bool>)
    requires calls != [] && Popped(calls[0], before, o, after)
    ensures o != Fault && Outcomes(Served(before, calls)) == [o] + Outcomes(Served(after, calls[1..]))
  {
    var r := if o.Item? then Some(o.item) else None;
    ServedOne(before, r, after, calls);
    assert ([r] + Served(after, calls[1..]))[1..] == Served(after, calls[1..]);
  }

  lemma GoodIsOk(s: State, forward: bool)
    requires Good(s, forward)
    ensures Ok(s)
  {
  }

  lemma OneTurnIsDeque(sources: seq<seq<Entry>>, calls: seq<bool>)
    requires SourcesSorted(sources) && Turns(calls) <= 1
    ensures Ok(Start(sources)) && Run(Start(sources), calls) == Outcomes(Served(Merged(sources), calls))
  {
    hide Turns, Merged;
    StartOk(sources);
    if calls != [] {
      RunIsDeque(Start(sources), calls);
    }
  }

  // --- two turns ---

  /** `y` lies beyond `e` in the direction of the pull. */
  predicate Beyond(forward: bool, y: Entry, e: Entry) {
    if forward then e.key < y.key else y.key < e.key
  }

  predicate AllBefore(forward: bool, y: Entry, es: seq<Entry>) {
    forall e :: e in es ==> Beyond(forward, y, e)
  }

  /** Two sources, the second down to the one item `y` beyond the first; both heads
      are in this direction's tournament and the first wins. */
  ghost predicate Leading(s: State, forward: bool, y: Entry) {
    && Ok(s) && |s.sources| == 2 && s.sources[1] == [] && AllBefore(forward, y, s.sources[0])
    && s.At(forward).primed && s.At(forward).vacated == [] && s.At(forward).parked == Stale
    && s.At(forward).tree.games == [0, 1]
    && |s.At(forward).tree.leaves| == 2 && s.At(forward).tree.leaves[1] == Some(Tagged(1, y))
    && s.At(forward).tree.leaves[0].Some? && Beyond(forward, y, s.At(forward).tree.leaves[0].value.entry)
    && !s.At(!forward).primed && |s.At(!forward).tree.leaves| == 2
  }

  /** After a turn: the other direction has taken `y` over, and the tournament of the
      first direction elects the slot it was taken from. */
  ghost predicate Orphaned(s: State, forward: bool) {
    && Ok(s) && |s.sources| == 2 && s.sources[1] == []
    && s.At(forward).primed && s.At(forward).vacated == [1] && s.At(forward).parked == Stale
    && |s.At(forward).tree.leaves| == 2 && s.At(forward).tree.games[0] == 1
    && s.At(forward).tree.leaves[0].Some? && s.At(forward).tree.leaves[1].None?
    && s.At(!forward).primed && s.At(!forward).vacated == [1] && !s.At(!forward).parked.Best?
    && s.At(!forward).tree.games == [0, 1]
    && |s.At(!forward).tree.leaves| == 2
    && s.At(!forward).tree.leaves[0].Some? && s.At(!forward).tree.leaves[1].None?
  }

  lemma PairPresent(leaves: seq<Option<Tagged>>)
    requires |leaves| == 2
    ensures Present(leaves) == (if leaves[0].Some? then 1 else 0) + if leaves[1].Some? then 1 else 0
  {
    assert leaves[..1][..0] == [];
    assert Present(leaves[..1]) == if leaves[0].Some? then 1 else 0;
  }

  /** Replacing the winner of a pair by an item that still wins. */
  lemma PairKeeps(forward: bool, leaves: seq<Option<Tagged>>, v: Option<Tagged>)
    requires |leaves| == 2 && !LeafLess(forward, leaves[1], v)
    ensures Put(forward, Tree([0, 1], leaves), 0, v) == Tree([0, 1], leaves[0 := v])
  {
    var games: seq<nat> := [0, 1];
    assert games[0 := 0] == games;
  }

  /** Emptying the loser of a pair elects it. */
  lemma PairOrphans(forward: bool, leaves: seq<Option<Tagged>>)
    requires |leaves| == 2 && leaves[1].Some?
    ensures Put(forward, Tree([0, 1], leaves), 1, None) == Tree([1, 1], leaves[1 := None])
  {
    var games: seq<nat> := [0, 1];
    assert games[0 := 1] == [1, 1];
  }

  /** Emptying the winner of a pair elects the other. */
  lemma PairYields(forward: bool, leaves: seq<Option<Tagged>>)
    requires |leaves| == 2 && leaves[0].Some?
    ensures Put(forward, Tree([1, 0], leaves), 1, None) == Tree([0, 1], leaves[1 := None])
  {
    var games: seq<nat> := [1, 0];
    assert games[1 := 1][0 := 0] == [0, 1];
  }

  lemma PairGames(forward: bool, leaves: seq<Option<Tagged>>, t: seq<nat>)
    requires |leaves| == |t| == 2
    ensures AllGames(forward, leaves, t) == if LeafLess(forward, leaves[1], leaves[0]) then [1, 0] else [0, 1]
  {
    RootSpan(2);
    Halves(1, 0, 2, 2);
    assert Subtree(forward, leaves, t, 2, 0, 1) == (0, t);
    assert Subtree(forward, leaves, t, 3, 1, 2) == (1, t);
    var swap := LeafLess(forward, leaves[1], leaves[0]);
    var loser: nat, winner: nat := if swap then 0 else 1, if swap then 1 else 0;
    assert t[1 := loser][0 := winner] == [winner, loser];
  }

  /** No slot vacated, nothing claimed: the winner of the pair goes. */
  lemma TakeWinner(s: State, forward: bool)
    requires Ok(s) && |s.sources| == 2 && |s.At(forward).tree.leaves| == 2
    requires s.At(forward).tree.games[0] < 2 && s.At(forward).tree.leaves[s.At(forward).tree.games[0]].Some?
    requires forall v :: v in s.At(forward).vacated ==> PeekSlot(s.At(!forward).tree, v).None?
    requires !s.At(forward).parked.Best?
    ensures
      var (claim, parked) := PickParked(forward, s.At(forward), s.At(!forward).tree);
      && claim.None? && !parked.Best? && (s.At(forward).vacated == [] ==> parked == s.At(forward).parked)
      && Take(s, forward) == (Item(s.At(forward).tree.leaves[s.At(forward).tree.games[0]].value), Advanced(s, forward, parked))
  {
    hide Advanced, PowerOfTwo, Present;
    PairPresent(s.At(forward).tree.leaves);
    BestParkedIsBest(forward, s.At(!forward).tree, s.At(forward).vacated);
  }

  lemma PullBefore(forward: bool, pulled: bool, y: Entry, es: seq<Entry>, slot: nat)
    requires AllBefore(forward, y, es) && es != []
    ensures
      var (head, rest) := Pull(pulled, es, slot);
      && head.Some? && head.value.source == slot && Beyond(forward, y, head.value.entry)
      && AllBefore(forward, y, rest) && |rest| == |es| - 1
  {
    assert es[0] in es && es[|es| - 1] in es;
  }

  lemma LeadingStep(s: State, forward: bool, y: Entry)
    requires Leading(s, forward, y) && s.sources[0] != []
    ensures
      var (o, t) := Step(s, forward);
      o.Item? && Leading(t, forward, y) && |t.sources[0]| == |s.sources[0]| - 1
  {
    hide Take, TreeOk;
    var mine := s.At(forward);
    TakeWinner(s, forward);
    var parked := PickParked(forward, mine, s.At(!forward).tree).1;
    PullBefore(forward, forward, y, s.sources[0], 0);
    PairKeeps(forward, mine.tree.leaves, Pull(forward, s.sources[0], 0).0);
    AdvanceOk(s, forward, parked);
  }

  lemma StartPair(forward: bool, es: seq<Entry>, y: Entry)
    ensures
      var s := Start([es, [y]]);
      && Ok(s) && |s.At(forward).tree.leaves| == |s.At(!forward).tree.leaves| == 2
      && forall i :: 0 <= i < 2 ==> s.At(forward).tree.leaves[i].None? && s.At(!forward).tree.leaves[i].None?
  {
    StartOk([es, [y]]);
    assert GrowTo(2, 2) == 2;
  }

  /** The first pull of a pair. */
  lemma StartLeads(forward: bool, es: seq<Entry>, y: Entry)
    requires AllBefore(forward, y, es) && |es| > 1
    ensures Ok(Start([es, [y]]))
    ensures
      var (o, t) := Step(Start([es, [y]]), forward);
      o.Item? && Leading(t, forward, y) && |t.sources[0]| == |es| - 2
  {
    hide Take, TreeOk, AllGames, Primed;
    var s := Start([es, [y]]);
    StartPair(forward, es, y);
    PrimedPair(s, forward, es, y);
    LeadingStep(Primed(s, forward), forward, y);
  }

  lemma PullTwo(forward: bool, sources: seq<seq<Entry>>, theirs: Side)
    requires |sources| == 2 && SideOk(theirs, 2)
    ensures
      var (h0, r0, o0) := PullHead(forward, sources[0], theirs, 2, 0);
      var (h1, r1, o1) := PullHead(forward, sources[1], o0, 2, 1);
      PullHeads(forward, sources, theirs, 2) == ([h0, h1], [r0, r1], o1)
  {
    hide SideOk, PullHead;
    var (h0, r0, o0) := PullHead(forward, sources[0], theirs, 2, 0);
    var (h1, r1, o1) := PullHead(forward, sources[1], o0, 2, 1);
    var none, one := PullHeads(forward, sources, theirs, 0), PullHeads(forward, sources, theirs, 1);
    var two := PullHeads(forward, sources, theirs, 2);
    assert none == ([], sources, theirs);
    assert one == (none.0 + [h0], sources[0 := r0], o0);
    assert one.1[1] == sources[1];
    assert two == (one.0 + [h1], one.1[1 := r1], o1);
    assert one.0 + [h1] == [h0, h1] && one.1[1 := r1] == [r0, r1];
  }

  /** Priming a pair both of whose slots get a head. */
  lemma PrimedTwo(s: State, forward: bool, heads: seq<Option<Tagged>>)
    requires Ok(s) && |s.sources| == 2 && |s.At(forward).tree.leaves| == |heads| == 2
    requires heads == PullHeads(forward, s.sources, s.At(!forward), 2).0 && heads[0].Some? && heads[1].Some?
    ensures
      var games := if LeafLess(forward, heads[1], heads[0]) then [1, 0] else [0, 1];
      var (_, left, theirs) := PullHeads(forward, s.sources, s.At(!forward), 2);
      Primed(s, forward) == s.(sources := left).With(forward, Side(Tree(games, heads), true, [], Stale), theirs.(parked := Stale))
  {
    hide PullHeads, AllGames;
    assert Padded(heads, 2) == heads;
    TreesOf(s, forward);
    PairGames(forward, heads, s.At(forward).tree.games);
    HeadIsMember(Vacant(heads, 2));
  }

  lemma PrimedPair(s: State, forward: bool, es: seq<Entry>, y: Entry)
    requires AllBefore(forward, y, es) && es != []
    requires Ok(s) && s.sources == [es, [y]] && !s.At(forward).primed && !s.At(!forward).primed
    requires |s.At(forward).tree.leaves| == |s.At(!forward).tree.leaves| == 2
    ensures Leading(Primed(s, forward), forward, y)
    ensures |Primed(s, forward).sources[0]| == |es| - 1
  {
    hide TreeOk;
    assert Pull(forward, [y], 1).1 == [];
    PullBefore(forward, forward, y, es, 0);
    PrimedOk(s, forward);
    PullTwo(forward, s.sources, s.At(!forward));
    PrimedTwo(s, forward, [Pull(forward, es, 0).0, Some(Tagged(1, y))]);
  }

  /** Turning around takes `y` out of the tournament it is losing in. */
  lemma TurnOrphans(s: State, forward: bool, y: Entry)
    requires Leading(s, forward, y) && s.sources[0] != []
    ensures
      var (o, t) := Step(s, !forward);
      o.Item? && Orphaned(t, forward) && |t.sources[0]| == |s.sources[0]| - 1
  {
    hide Take, TreeOk, AllGames, Primed;
    var p := Primed(s, !forward);
    PrimedOk(s, !forward);
    PrimedTurned(s, forward, y);
    TakeWinner(p, !forward);
    var parked := PickParked(!forward, p.At(!forward), p.At(forward).tree).1;
    PairYields(!forward, p.At(!forward).tree.leaves);
    AdvanceOk(p, !forward, parked);
  }

  /** The state between priming the other direction and its first item. */
  lemma PrimedTurned(s: State, forward: bool, y: Entry)
    requires Leading(s, forward, y) && s.sources[0] != []
    ensures
      var p := Primed(s, !forward);
      && Ok(p) && |p.sources| == 2 && p.sources[1] == [] && |p.sources[0]| == |s.sources[0]| - 1
      && p.At(forward).tree == Tree([1, 1], s.At(forward).tree.leaves[1 := None])
      && p.At(forward).primed && p.At(forward).vacated == [1] && p.At(forward).parked == Stale
      && p.At(!forward).primed && p.At(!forward).vacated == [] && p.At(!forward).parked == Stale
      && p.At(!forward).tree.games == [1, 0] && |p.At(!forward).tree.leaves| == 2
      && p.At(!forward).tree.leaves[0].Some? && p.At(!forward).tree.leaves[1].Some?
  {
    hide TreeOk, AfterPut, PullHeads, Primed;
    PrimedOk(s, !forward);
    PullBefore(forward, !forward, y, s.sources[0], 0);
    PullTwo(!forward, s.sources, s.At(forward));
    PairOrphans(forward, s.At(forward).tree.leaves);
    PrimedTwo(s, !forward, [Pull(!forward, s.sources[0], 0).0, Some(Tagged(1, y))]);
  }

  lemma OrphanedStep(s: State, forward: bool)
    requires Orphaned(s, forward) && s.sources[0] != []
    ensures
      var (o, t) := Step(s, !forward);
      o.Item? && Orphaned(t, forward) && |t.sources[0]| == |s.sources[0]| - 1
  {
    hide Take, TreeOk;
    var mine := s.At(!forward);
    TakeWinner(s, !forward);
    var parked := PickParked(!forward, mine, s.At(forward).tree).1;
    PairKeeps(!forward, mine.tree.leaves, Pull(!forward, s.sources[0], 0).0);
    AdvanceOk(s, !forward, parked);
  }

  /** Turning back elects the absent slot. */
  lemma OrphanedFaults(s: State, forward: bool)
    requires Orphaned(s, forward)
    ensures Step(s, forward).0 == Fault
  {
    hide PowerOfTwo, Present;
    PairPresent(s.At(forward).tree.leaves);
    BestParkedIsBest(forward, s.At(!forward).tree, [1]);
  }

  lemma {:induction false} OrphanedRunFaults(s: State, forward: bool, calls: seq<bool>)
    requires Orphaned(s, forward) && |s.sources[0]| >= |calls| && Turns([!forward] + calls) >= 1
    ensures Fault in Run(s, calls)
    decreases |calls|
  {
    hide Step, Orphaned;
    assert Ok(s) && |s.sources| == 2 by { OrphanedOk(s, forward); }
    NextTurn(!forward, calls);
    if calls[0] == forward {
      OrphanedFaults(s, forward);
    } else {
      OrphanedStep(s, forward);
      OrphanedRunFaults(Step(s, !forward).1, forward, calls[1..]);
    }
  }

  lemma OrphanedOk(s: State, forward: bool)
    requires Orphaned(s, forward)
    ensures Ok(s) && |s.sources| == 2
  {
  }

  lemma NextTurn(last: bool, calls: seq<bool>)
    requires Turns([last] + calls) >= 1
    ensures calls != [] && Turns([last] + calls) == Turns(calls) + if last != calls[0] then 1 else 0
    ensures [calls[0]] + calls[1..] == calls
  {
    assert ([last] + calls)[1..] == calls;
  }

  lemma {:induction false} LeadingRunFaults(s: State, forward: bool, y: Entry, calls: seq<bool>)
    requires Leading(s, forward, y) && |s.sources[0]| >= |calls| && Turns([forward] + calls) >= 2
    ensures Fault in Run(s, calls)
    decreases |calls|
  {
    hide Step, Leading, Orphaned;
    assert Ok(s) && |s.sources| == 2 by { LeadingOk(s, forward, y); }
    NextTurn(forward, calls);
    if calls[0] == forward {
      LeadingStep(s, forward, y);
      LeadingRunFaults(Step(s, forward).1, forward, y, calls[1..]);
    } else {
      TurnOrphans(s, forward, y);
      OrphanedRunFaults(Step(s, !forward).1, forward, calls[1..]);
    }
  }

  lemma LeadingOk(s: State, forward: bool, y: Entry)
    requires Leading(s, forward, y)
    ensures Ok(s) && |s.sources| == 2
  {
  }

  function Plain(key: Key): Entry {
    Entry(key, 0, Value, [])
  }

  /** A long source and a single item beyond it. */
  function Pair(forward: bool, n: nat): seq<seq<Entry>> {
    [seq(n, i => Plain(i)), [Plain(if forward then n else -1)]]
  }

  lemma PairSorted(forward: bool, n: nat)
    ensures SourcesSorted(Pair(forward, n))
    ensures AllBefore(forward, Pair(forward, n)[1][0], Pair(forward, n)[0])
  {
  }

  /** Every pattern of calls that turns twice reads an absent leaf on some sources. */
  lemma TwoTurnsFault(calls: seq<bool>)
    requires Turns(calls) >= 2
    ensures
      var sources := Pair(calls[0], |calls| + 1);
      SourcesSorted(sources) && Ok(Start(sources)) && Fault in Run(Start(sources), calls)
  {
    hide Step, Leading, Start;
    var forward, n := calls[0], |calls| + 1;
    var sources := Pair(forward, n);
    PairSorted(forward, n);
    var es, y := sources[0], sources[1][0];
    assert sources == [es, [y]];
    StartLeads(forward, es, y);
    var t := Step(Start(sources), forward).1;
    assert [forward] + calls[1..] == calls;
    LeadingRunFaults(t, forward, y, calls[1..]);
  }

  lemma {:induction false} DequesDoNotFault(answers: seq<Option<Tagged>>)
    ensures Fault !in Outcomes(answers)
  {
    if answers != [] {
      DequesDoNotFault(answers[1..]);
    }
  }

  /** The merger's promise for a pattern of calls, over all sorted sources. */
  ghost predicate IsDeque(calls: seq<bool>) {
    forall sources :: SourcesSorted(sources) ==>
      Ok(Start(sources)) && Run(Start(sources), calls) == Outcomes(Served(Merged(sources), calls))
  }

  /** The two-tournament merger hands out the merge of its sources from both ends if
      and only if the calls change direction at most once. */
  lemma DequeUpToOneTurn(calls: seq<bool>)
    ensures IsDeque(calls) <==> Turns(calls) <= 1
  {
    hide Run, Served, Outcomes, Merged, Start, SourcesSorted;
    if Turns(calls) <= 1 {
      forall sources | SourcesSorted(sources)
        ensures Ok(Start(sources)) && Run(Start(sources), calls) == Outcomes(Served(Merged(sources), calls))
      {
        OneTurnIsDeque(sources, calls);
      }
    } else {
      TwoTurnsFault(calls);
      var sources := Pair(calls[0], |calls| + 1);
      DequesDoNotFault(Served(Merged(sources), calls));
    }
  }

  // --- particular runs ---

  /** Emptying the winner of a pair elects the other. */
  lemma PairYieldsLeft(forward: bool, leaves: seq<Option<Tagged>>)
    requires |leaves| == 2 && leaves[1].Some?
    ensures Put(forward, Tree([0, 1], leaves), 0, None) == Tree([1, 0], leaves[0 := None])
  {
    var games: seq<nat> := [0, 1];
    assert games[1 := 0][0 := 1] == [1, 0];
  }

  /** Replacing the second of a pair while it still wins. */
  lemma PairKeepsRight(forward: bool, leaves: seq<Option<Tagged>>, v: Option<Tagged>)
    requires |leaves| == 2 && !LeafLess(forward, leaves[0], v)
    ensures Put(forward, Tree([1, 0], leaves), 1, v) == Tree([1, 0], leaves[1 := v])
  {
    var games: seq<nat> := [1, 0];
    assert games[0 := 1] == games;
  }

  lemma PairOrphansRight(forward: bool, leaves: seq<Option<Tagged>>)
    requires |leaves| == 2 && leaves[0].Some?
    ensures Put(forward, Tree([1, 0], leaves), 0, None) == Tree([0, 0], leaves[0 := None])
  {
    var games: seq<nat> := [1, 0];
    assert games[0 := 0] == [0, 0];
  }

  lemma FirstOfPair(sources: seq<seq<Entry>>, forward: bool)
    requires |sources| == 2 && sources[0] != [] && sources[1] != []
    ensures Ok(Start(sources)) && !Start(sources).At(forward).primed
    ensures
      var (h0, r0) := Pull(forward, sources[0], 0);
      var (h1, r1) := Pull(forward, sources[1], 1);
      var games := if LeafLess(forward, h1, h0) then [1, 0] else [0, 1];
      var p := Primed(Start(sources), forward);
      && Ok(p) && p.sources == [r0, r1] && p.At(forward) == Side(Tree(games, [h0, h1]), true, [], Stale)
      && !p.At(!forward).primed && |p.At(!forward).tree.leaves| == 2 && p.At(!forward).vacated == []
  {
    hide AllGames, TreeOk;
    StartOk(sources);
    assert GrowTo(2, 2) == 2;
    var s := Start(sources);
    PrimedOk(s, forward);
    PullTwo(forward, sources, s.At(!forward));
    PrimedTwo(s, forward, [Pull(forward, sources[0], 0).0, Pull(forward, sources[1], 1).0]);
  }

  predicate Rising(a: Entry, b: Entry, c: Entry, d: Entry) {
    a.key < b.key < c.key < d.key
  }

  /** After `next` and `next_back` on [a, b, d] and [c]: `c` has moved to the backward
      tournament, and the forward one elects the slot it left although `b` is there. */
  lemma TurnedTwoSources(a: Entry, b: Entry, c: Entry, d: Entry)
    requires Rising(a, b, c, d)
    ensures Ok(Start([[a, b, d], [c]]))
    ensures
      var s := Step(Start([[a, b, d], [c]]), true);
      Ok(s.1) && s.0 == Item(Tagged(0, a))
    ensures
      var s := Step(Step(Start([[a, b, d], [c]]), true).1, false);
      && Ok(s.1) && s.0 == Item(Tagged(0, d)) && s.1.sources == [[], []]
      && s.1.fwd == Side(Tree([1, 1], [Some(Tagged(0, b)), None]), true, [1], Stale)
      && s.1.bwd.tree.leaves == [None, Some(Tagged(1, c))]
  {
    hide Take, TreeOk, Start, Primed, Present, PickParked;
    var s := Start([[a, b, d], [c]]);
    FirstOfPair([[a, b, d], [c]], true);
    assert [c][1..] == [] && [a, b, d][1..] == [b, d] && [b, d][1..] == [d];
    var p := Primed(s, true);
    StepOk(s, true);
    TakeWinner(p, true);
    PairKeeps(true, p.fwd.tree.leaves, Some(Tagged(0, b)));
    var t := Step(s, true).1;
    assert t.fwd == Side(Tree([0, 1], [Some(Tagged(0, b)), Some(Tagged(1, c))]), true, [], Stale);
    assert t.sources == [[d], []] && !t.bwd.primed && |t.bwd.tree.leaves| == 2;
    TurnedBack(t, b, c, d);
  }

  lemma TurnedBack(t: State, b: Entry, c: Entry, d: Entry)
    requires Ok(t) && t.sources == [[d], []] && !t.bwd.primed && |t.bwd.tree.leaves| == 2 && c.key < d.key
    requires t.fwd == Side(Tree([0, 1], [Some(Tagged(0, b)), Some(Tagged(1, c))]), true, [], Stale)
    ensures
      var s := Step(t, false);
      && Ok(s.1) && s.0 == Item(Tagged(0, d)) && s.1.sources == [[], []]
      && s.1.fwd == Side(Tree([1, 1], [Some(Tagged(0, b)), None]), true, [1], Stale)
      && s.1.bwd.tree.leaves == [None, Some(Tagged(1, c))]
  {
    hide Take, TreeOk, Primed, Present, PickParked, AfterPut;
    StepOk(t, false);
    PrimedOk(t, false);
    PullTwo(false, t.sources, t.fwd);
    PairOrphans(true, t.fwd.tree.leaves);
    assert [d][..0] == [];
    PrimedTwo(t, false, [Some(Tagged(0, d)), Some(Tagged(1, c))]);
    var q := Primed(t, false);
    TakeWinner(q, false);
    PairYieldsLeft(false, q.bwd.tree.leaves);
  }

  /** The wrong item: after `next` and `next_back`, `next` hands out `c` and `b` is
      still to come. */
  lemma WrongItem(a: Entry, b: Entry, c: Entry, d: Entry)
    requires Rising(a, b, c, d)
    ensures
      var s := Start([[a, b, d], [c]]);
      Ok(s) && Run(s, [true, false, true]) == [Item(Tagged(0, a)), Item(Tagged(0, d)), Item(Tagged(1, c))]
  {
    hide Step, Start;
    TurnedTwoSources(a, b, c, d);
    var s0 := Start([[a, b, d], [c]]);
    var s1 := Step(s0, true).1;
    var s2 := Step(s1, false).1;
    ClaimsParked(s2);
    var calls := [true, false, true];
    assert calls[1..] == [false, true] && [false, true][1..] == [true] && [true][1..] == [];
    StepOk(s2, true);
    assert Run(s2, [true]) == [Step(s2, true).0];
    assert Run(s1, [false, true]) == [Item(Tagged(0, d))] + Run(s2, [true]);
  }

  lemma ClaimsParked(s: State)
    requires Ok(s) && |s.sources| == 2 && |s.bwd.tree.leaves| == 2 && s.bwd.tree.leaves[1].Some?
    requires s.fwd.primed && s.fwd.vacated == [1] && s.fwd.parked == Stale && |s.fwd.tree.leaves| == 2
    requires s.fwd.tree.games[0] == 1 && s.fwd.tree.leaves[1].None?
    ensures Step(s, true).0 == Item(s.bwd.tree.leaves[1].value)
  {
    hide PowerOfTwo, Present, Put;
    PairPresent(s.fwd.tree.leaves);
    PairPresent(s.bwd.tree.leaves);
    BestParkedIsBest(true, s.bwd.tree, [1]);
  }

  /** `next_back`, then `next`, on [a] and [b, c, d]: taking `a` over for the front
      leaves the backward tournament electing the empty slot of [a], with `c` there. */
  lemma TurningElectsAbsent(a: Entry, b: Entry, c: Entry, d: Entry)
    requires Rising(a, b, c, d)
    ensures Ok(Start([[a], [b, c, d]])) && Ok(Step(Start([[a], [b, c, d]]), false).1)
    ensures
      var t := Step(Step(Start([[a], [b, c, d]]), false).1, true).1;
      t.bwd.tree == Tree([0, 0], [None, Some(Tagged(1, c))])
  {
    hide Take, TreeOk, Start, Primed, Present, PickParked;
    var s := Start([[a], [b, c, d]]);
    FirstOfPair([[a], [b, c, d]], false);
    assert [a][..0] == [] && [b, c, d][..2] == [b, c] && [b, c][..1] == [b];
    var p := Primed(s, false);
    StepOk(s, false);
    TakeWinner(p, false);
    PairKeepsRight(false, p.bwd.tree.leaves, Some(Tagged(1, c)));
    var t := Step(s, false).1;
    assert t.bwd == Side(Tree([1, 0], [Some(Tagged(0, a)), Some(Tagged(1, c))]), true, [], Stale);
    assert t.sources == [[], [b]] && !t.fwd.primed && |t.fwd.tree.leaves| == 2;
    FrontTakesOver(t, a, b, c);
  }

  lemma FrontTakesOver(t: State, a: Entry, b: Entry, c: Entry)
    requires Ok(t) && t.sources == [[], [b]] && !t.fwd.primed && |t.fwd.tree.leaves| == 2 && a.key < b.key
    requires t.bwd == Side(Tree([1, 0], [Some(Tagged(0, a)), Some(Tagged(1, c))]), true, [], Stale)
    ensures Step(t, true).1.bwd.tree == Tree([0, 0], [None, Some(Tagged(1, c))])
  {
    hide Take, TreeOk, Primed, Present, PickParked, AfterPut;
    PrimedOk(t, true);
    PullTwo(true, t.sources, t.bwd);
    PairOrphansRight(false, t.bwd.tree.leaves);
    PrimedTwo(t, true, [Some(Tagged(0, a)), Some(Tagged(1, b))]);
    TakeWinner(Primed(t, true), true);
  }
}
