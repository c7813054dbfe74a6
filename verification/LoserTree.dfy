/** src/loser_tree.rs: the tournament tree, in place. */
module LoserTrees {
  import opened Arithmetic
  import opened Core
  import opened MergeSpec
  import opened LoserTheory

  function Present(leaves: seq<Option<Tagged>>): nat {
    if leaves == [] then 0
    else Present(leaves[..|leaves| - 1]) + if leaves[|leaves| - 1].Some? then 1 else 0
  }

  lemma {:induction false} PresentUpdate(leaves: seq<Option<Tagged>>, i: nat, v: Option<Tagged>)
    requires i < |leaves|
    ensures Present(leaves[i := v]) == Present(leaves) - (if leaves[i].Some? then 1 else 0) + if v.Some? then 1 else 0
  {
    var n := |leaves| - 1;
    if i < n {
      PresentUpdate(leaves[..n], i, v);
      assert leaves[i := v][..n] == leaves[..n][i := v];
    } else {
      assert leaves[i := v][..n] == leaves[..n];
    }
  }

  lemma {:induction false} PresentNone(leaves: seq<Option<Tagged>>)
    ensures Present(leaves) == 0 <==> forall i :: 0 <= i < |leaves| ==> leaves[i].None?
  {
    if leaves != [] {
      PresentNone(leaves[..|leaves| - 1]);
    }
  }

  class LoserTree {
    const forward: bool
    const leaves: array<Option<Tagged>>
    const tree: array<nat>
    const nSources: nat
    var active: nat

    /** Everything but the outcome of the games. */
    ghost predicate Shape()
      reads this, leaves, tree
    {
      && leaves.Length == tree.Length >= 2
      && PowerOfTwo(tree.Length)
      && nSources <= tree.Length
      && active == Present(leaves[..])
      && Slotted(leaves[..])
      && (forall i :: nSources <= i < leaves.Length ==> leaves[i].None?)
      && InTree(tree[..])
    }

    ghost predicate Valid()
      reads this, leaves, tree
    {
      Shape() && Tournament(forward, tree[..], leaves[..])
    }

    /** The recursive build below one node, which covers the slots `lo..hi`. */
    method BuildSubtree(node: nat, lo: nat, hi: nat) returns (winner: nat)
      requires leaves.Length == tree.Length >= 2
      requires lo < hi <= tree.Length && Spans(node, lo, hi, tree.Length)
      modifies tree
      ensures (winner, tree[..]) == Subtree(forward, leaves[..], old(tree[..]), node, lo, hi)
      decreases hi - lo
    {
      hide Spans, LeafLess;
      if hi - lo == 1 {
        return lo;
      }
      var mid := (lo + hi) / 2;
      Halves(node, lo, hi, tree.Length);
      var left := BuildSubtree(2 * node, lo, mid);
      var right := BuildSubtree(2 * node + 1, mid, hi);
      var loser: nat;
      if LeafLess(forward, leaves[right], leaves[left]) {
        winner, loser := right, left;
      } else {
        winner, loser := left, right;
      }
      ghost var t2: seq<nat> := tree[..];
      tree[node] := loser;
      assert tree[..] == t2[node := loser];
      if node == 1 {
        tree[0] := winner;
        assert tree[..] == t2[node := loser][0 := winner];
      }
    }

    constructor (initial: seq<Option<Tagged>>, forward: bool)
      requires Slotted(initial)
      ensures Valid() && fresh(leaves) && fresh(tree)
      ensures this.forward == forward && nSources == |initial|
      ensures leaves.Length == GrowTo(2, |initial|) && leaves[..] == Padded(initial, leaves.Length)
      ensures tree[..] == AllGames(forward, leaves[..], seq(leaves.Length, _ => 0))
    {
      var cap := GrowTo(2, |initial|);
      this.forward, nSources := forward, |initial|;
      leaves := new Option<Tagged>[cap](i => if 0 <= i < |initial| then initial[i] else None);
      tree := new nat[cap](_ => 0);
      new;
      assert leaves[..] == Padded(initial, cap) && tree[..] == seq(cap, _ => 0);
      active := CountPresent();
      Rebuild();
    }

    method CountPresent() returns (n: nat)
      ensures n == Present(leaves[..])
    {
      n := 0;
      for i := 0 to leaves.Length
        invariant n == Present(leaves[..i])
      {
        assert leaves[..i + 1][..i] == leaves[..i];
        if leaves[i].Some? {
          n := n + 1;
        }
      }
      assert leaves[..leaves.Length] == leaves[..];
    }

    /** Plays every game afresh. */
    method Rebuild()
      requires leaves.Length == tree.Length >= 2 && PowerOfTwo(tree.Length)
      requires nSources <= tree.Length && active == Present(leaves[..]) && Slotted(leaves[..])
      requires forall i :: nSources <= i < leaves.Length ==> leaves[i].None?
      modifies tree
      ensures Valid()
      ensures tree[..] == AllGames(forward, leaves[..], old(tree[..]))
    {
      hide PowerOfTwo, Present, Slotted, Tournament, InTree, Subtree, Spans;
      RootSpan(leaves.Length);
      GamesStand(forward, leaves[..], tree[..]);
      var winner := BuildSubtree(1, 0, leaves.Length);
    }

    /** Drops every leaf and leaves the games alone. */
    method Clear()
      requires Shape()
      modifies this, leaves
      ensures Shape() && active == 0
      ensures forall i :: 0 <= i < leaves.Length ==> leaves[i].None?
    {
      hide Present, PowerOfTwo, InTree, Slotted;
      ghost var before := leaves[..];
      for i := 0 to leaves.Length
        invariant forall k :: 0 <= k < i ==> leaves[k].None?
        invariant forall k :: i <= k < leaves.Length ==> leaves[k] == before[k]
      {
        leaves[i] := None;
      }
      active := 0;
      NonePresent(leaves[..]);
    }

    /** Takes a fresh head for every slot and plays the games again, in place. */
    method RefillWith(heads: seq<Option<Tagged>>)
      requires Shape() && |heads| == nSources && Slotted(heads)
      modifies this, leaves, tree
      ensures Valid() && leaves[..] == Padded(heads, leaves.Length)
      ensures tree[..] == AllGames(forward, leaves[..], old(tree[..]))
    {
      Clear();
      for slot := 0 to nSources
        invariant leaves.Length == tree.Length >= 2 && PowerOfTwo(tree.Length) && nSources <= tree.Length
        invariant active == Present(leaves[..])
        invariant forall k :: 0 <= k < slot ==> leaves[k] == heads[k]
        invariant forall k :: slot <= k < leaves.Length ==> leaves[k].None?
        invariant tree[..] == old(tree[..])
      {
        hide PowerOfTwo, Present;
        if heads[slot].Some? {
          ghost var before := leaves[..];
          PresentUpdate(before, slot, heads[slot]);
          leaves[slot] := heads[slot];
          active := active + 1;
          assert leaves[..] == before[slot := heads[slot]];
        }
      }
      assert leaves[..] == Padded(heads, leaves.Length);
      Rebuild();
    }

    /** The slot the games elect. In a standing tournament it is present and no
        leaf beats it. */
    method WinnerSlot() returns (r: Option<nat>)
      requires Shape()
      ensures r == if active == 0 then None else Some(tree[0])
      ensures r.None? <==> forall i :: 0 <= i < leaves.Length ==> leaves[i].None?
      ensures Valid() && r.Some? ==>
        && r.value < nSources && leaves[r.value].Some?
        && forall i :: 0 <= i < leaves.Length ==> !LeafLess(forward, leaves[i], leaves[r.value])
    {
      hide Tournament, PowerOfTwo;
      PresentNone(leaves[..]);
      if active == 0 {
        return None;
      }
      if Tournament(forward, tree[..], leaves[..]) {
        LeastOverall(forward, tree[..], leaves[..]);
      }
      r := Some(tree[0]);
    }

    method PeekSlot(slot: nat) returns (r: Option<Tagged>)
      ensures r == if slot < leaves.Length then leaves[slot] else None
    {
      r := if slot < leaves.Length then leaves[slot] else None;
    }

    /** Replays the games from a leaf up to the root. */
    method Replay(leaf: nat) returns (ghost games: nat)
      requires leaves.Length == tree.Length >= 2 && PowerOfTwo(tree.Length) && leaf < tree.Length && InTree(tree[..])
      modifies tree
      ensures tree[..] == Replayed(forward, old(tree[..]), leaves[..], (tree.Length + leaf) / 2, leaf)
      ensures games == Log2(tree.Length)
    {
      hide PowerOfTwo, LeafLess;
      ghost var goal := Replayed(forward, tree[..], leaves[..], (tree.Length + leaf) / 2, leaf);
      GamesToRoot(tree.Length, tree.Length + leaf);
      games := 0;
      var winner: nat := leaf;
      var node: nat := (leaves.Length + leaf) / 2;
      while node >= 1
        invariant node < tree.Length && winner < tree.Length && InTree(tree[..])
        invariant Replayed(forward, tree[..], leaves[..], node, winner) == goal
        invariant games + Games(node) == Log2(tree.Length)
        decreases node
      {
        ghost var before := tree[..];
        var other := tree[node];
        if LeafLess(forward, leaves[other], leaves[winner]) {
          tree[node] := winner;
          assert tree[..] == before[node := winner];
          winner := other;
        }
        node := node / 2;
        games := games + 1;
      }
      ghost var last := tree[..];
      tree[0] := winner;
      assert tree[..] == last[0 := winner];
    }

    /** Puts a leaf and replays its path. A tournament stands afterwards if the
        slot was the winner's. */
    method Put(slot: nat, v: Option<Tagged>)
      requires Shape() && slot < nSources && (v.Some? ==> v.value.source == slot)
      modifies this, leaves, tree
      ensures Shape()
      ensures leaves[..] == old(leaves[..])[slot := v]
      ensures tree[..] == AfterPut(forward, old(tree[..]), old(leaves[..]), slot, v)
      ensures old(Valid()) && slot == old(tree[0]) ==> Valid()
    {
      hide Tournament, PowerOfTwo, Replayed;
      ghost var ls, t := leaves[..], tree[..];
      PresentNone(ls);
      PresentUpdate(ls, slot, v);
      ReplayInTree(forward, t, ls[slot := v], (|t| + slot) / 2, slot);
      if Tournament(forward, t, ls) {
        ReplayFromWinner(forward, t, ls, v);
      }
      active := active - (if leaves[slot].Some? then 1 else 0) + if v.Some? then 1 else 0;
      leaves[slot] := v;
      assert leaves[..] == ls[slot := v];
      ghost var games := Replay(slot);
    }

    /** Hands out the winner and puts the next item of its source in its place.
        The winner must be there: the code asserts it. */
    method ReplaceMin(entry: Tagged) returns (r: Tagged)
      requires Shape() && active > 0 && entry.source == tree[0] < nSources && leaves[tree[0]].Some?
      modifies this, leaves, tree
      ensures Shape() && old(leaves[tree[0]]) == Some(r)
      ensures leaves[..] == old(leaves[..])[old(tree[0]) := Some(entry)]
      ensures tree[..] == AfterPut(forward, old(tree[..]), old(leaves[..]), old(tree[0]), Some(entry))
      ensures old(Valid()) ==> Valid()
    {
      hide Tournament, AfterPut, PowerOfTwo, Present;
      r := leaves[tree[0]].value;
      Put(tree[0], Some(entry));
    }

    /** Hands out the winner of an exhausted source. The winner must be there: the
        code asserts it. */
    method PopMin() returns (r: Option<Tagged>)
      requires Shape() && (active > 0 ==> tree[0] < nSources && leaves[tree[0]].Some?)
      modifies this, leaves, tree
      ensures Shape()
      ensures old(active) == 0 ==> r == None && leaves[..] == old(leaves[..]) && tree[..] == old(tree[..])
      ensures old(active) > 0 ==>
        && r.Some? && old(leaves[tree[0]]) == r
        && leaves[..] == old(leaves[..])[old(tree[0]) := None]
        && tree[..] == AfterPut(forward, old(tree[..]), old(leaves[..]), old(tree[0]), None)
      ensures old(Valid()) ==> Valid()
    {
      hide Tournament, AfterPut;
      if active == 0 {
        return None;
      }
      r := leaves[tree[0]];
      Put(tree[0], None);
    }

    /** Takes the leaf of any slot. A standing tournament survives exactly when
        there was nothing to take or the slot was the winner's. */
    method TakeSlot(slot: nat) returns (r: Option<Tagged>)
      requires Shape()
      modifies this, leaves, tree
      ensures Shape()
      ensures r == if slot < leaves.Length then old(leaves[..])[slot] else None
      ensures r.None? ==> leaves[..] == old(leaves[..]) && tree[..] == old(tree[..])
      ensures r.Some? ==>
        && leaves[..] == old(leaves[..])[slot := None]
        && tree[..] == AfterPut(forward, old(tree[..]), old(leaves[..]), slot, None)
      ensures old(Valid()) ==> (Valid() <==> r.None? || slot == old(tree[0]))
    {
      hide Tournament, PowerOfTwo, Present;
      if slot >= leaves.Length || leaves[slot].None? {
        return None;
      }
      ghost var ls, t := leaves[..], tree[..];
      if Tournament(forward, t, ls) {
        TakeSlotExact(forward, t, ls, slot);
      }
      r := leaves[slot];
      Put(slot, None);
    }
  }

  /** `heads` with absent leaves up to the capacity. */
  function Padded(heads: seq<Option<Tagged>>, cap: nat): (r: seq<Option<Tagged>>)
    ensures |r| == cap
  {
    seq(cap, i requires 0 <= i < cap => if i < |heads| then heads[i] else None)
  }

  /** The games after a leaf is put and its path replayed. */
  function AfterPut(forward: bool, tree: seq<nat>, leaves: seq<Option<Tagged>>, slot: nat, v: Option<Tagged>): seq<nat>
    requires |tree| == |leaves| > 1 && slot < |tree| && InTree(tree)
  {
    Replayed(forward, tree, leaves[slot := v], (|tree| + slot) / 2, slot)
  }

  /** The winner below a node and the games after playing all of them. */
  function Subtree(forward: bool, leaves: seq<Option<Tagged>>, t: seq<nat>, node: nat, lo: nat, hi: nat): (r: (nat, seq<nat>))
    requires |leaves| == |t| >= 2
    requires lo < hi <= |t| && Spans(node, lo, hi, |t|)
    ensures |r.1| == |t| && lo <= r.0 < hi
    decreases hi - lo
  {
    hide Spans, LeafLess;
    if hi - lo == 1 then (lo, t)
    else
      var mid := (lo + hi) / 2;
      Halves(node, lo, hi, |t|);
      var (left, t1) := Subtree(forward, leaves, t, 2 * node, lo, mid);
      var (right, t2) := Subtree(forward, leaves, t1, 2 * node + 1, mid, hi);
      var swap := LeafLess(forward, leaves[right], leaves[left]);
      var winner, t3 := if swap then right else left, t2[node := if swap then left else right];
      (winner, if node == 1 then t3[0 := winner] else t3)
  }

  function AllGames(forward: bool, leaves: seq<Option<Tagged>>, t: seq<nat>): (r: seq<nat>)
    requires |leaves| == |t| >= 2 && PowerOfTwo(|t|)
    ensures |r| == |t|
  {
    RootSpan(|t|);
    Subtree(forward, leaves, t, 1, 0, |t|).1
  }

  lemma {:induction false} SubtreeBuilt(forward: bool, leaves: seq<Option<Tagged>>, t: seq<nat>, node: nat, lo: nat, hi: nat)
    requires |leaves| == |t| >= 2
    requires lo < hi <= |t| && Spans(node, lo, hi, |t|)
    ensures
      var (winner, after) := Subtree(forward, leaves, t, node, lo, hi);
      && Built(forward, after, leaves, node, winner) && SameOutside(t, after, node)
      && after[0] == if node == 1 then winner else t[0]
    decreases hi - lo
  {
    hide Built, SameOutside, Spans, LeafLess;
    if hi - lo == 1 {
      LeafSpan(node, lo, hi, |t|);
      LeafBuilt(forward, t, leaves, node, lo);
    } else {
      var mid := (lo + hi) / 2;
      Halves(node, lo, hi, |t|);
      SubtreeBuilt(forward, leaves, t, 2 * node, lo, mid);
      var (left, t1) := Subtree(forward, leaves, t, 2 * node, lo, mid);
      SubtreeBuilt(forward, leaves, t1, 2 * node + 1, mid, hi);
      var (right, t2) := Subtree(forward, leaves, t1, 2 * node + 1, mid, hi);
      NodeBuilt(forward, t, t1, t2, leaves, node, left, right);
      if node == 1 {
        var swap := LeafLess(forward, leaves[right], leaves[left]);
        RootStored(forward, t, t2[node := if swap then left else right], leaves, node, if swap then right else left);
      }
    }
  }

  /** Playing every game gives a tournament, whatever was stored before. */
  lemma GamesStand(forward: bool, leaves: seq<Option<Tagged>>, t: seq<nat>)
    requires |leaves| == |t| >= 2 && PowerOfTwo(|t|)
    ensures Tournament(forward, AllGames(forward, leaves, t), leaves) && InTree(AllGames(forward, leaves, t))
  {
    hide PowerOfTwo, Subtree, Built, SameOutside, Spans;
    RootSpan(|t|);
    SubtreeBuilt(forward, leaves, t, 1, 0, |t|);
    var (winner, after) := Subtree(forward, leaves, t, 1, 0, |t|);
    BuiltIsTournament(forward, after, leaves, winner);
  }

  lemma NonePresent(leaves: seq<Option<Tagged>>)
    requires forall i :: 0 <= i < |leaves| ==> leaves[i].None?
    ensures Present(leaves) == 0 && Slotted(leaves)
  {
    PresentNone(leaves);
  }

  lemma {:induction false} ReplayInTree(forward: bool, tree: seq<nat>, leaves: seq<Option<Tagged>>, node: nat, w: nat)
    requires |tree| == |leaves| > 1 && node < |tree| && w < |tree| && InTree(tree)
    ensures |Replayed(forward, tree, leaves, node, w)| == |tree| && InTree(Replayed(forward, tree, leaves, node, w))
    decreases node
  {
    if node > 0 {
      if LeafLess(forward, leaves[tree[node]], leaves[w]) {
        ReplayInTree(forward, tree[node := w], leaves, node / 2, tree[node]);
      } else {
        ReplayInTree(forward, tree, leaves, node / 2, w);
      }
    }
  }

  /** Once everything below the root is built, the tournament stands. */
  lemma BuiltIsTournament(forward: bool, tree: seq<nat>, leaves: seq<Option<Tagged>>, winner: nat)
    requires |tree| > 1 && Built(forward, tree, leaves, 1, winner) && tree[0] == winner
    ensures Tournament(forward, tree, leaves) && InTree(tree)
  {
    hide Played;
    forall n | 0 < n < |tree|
      ensures Played(forward, tree, leaves, n)
    {
      RootAbove(n);
    }
    LosersInTree(forward, tree, leaves);
  }

  /** Some leaf is present, so the winner is, and none beats it. */
  lemma LeastOverall(forward: bool, tree: seq<nat>, leaves: seq<Option<Tagged>>)
    requires Tournament(forward, tree, leaves) && Slotted(leaves)
    requires exists i :: 0 <= i < |leaves| && leaves[i].Some?
    ensures |tree| == |leaves| > 1 && tree[0] < |tree| && leaves[tree[0]].Some?
    ensures forall i :: 0 <= i < |leaves| ==> !LeafLess(forward, leaves[i], leaves[tree[0]])
  {
    hide Played;
    forall i | 0 <= i < |leaves|
      ensures tree[0] < |tree| && !LeafLess(forward, leaves[i], leaves[tree[0]])
    {
      WinnerBeatsRest(forward, tree, leaves, i);
    }
  }
  /** Every game below `node` is played and `winner` came out on top. */
  ghost predicate Built(forward: bool, tree: seq<nat>, leaves: seq<Option<Tagged>>, node: nat, winner: nat) {
    && |tree| == |leaves| && node > 0
    && winner == Win(tree, |tree|, node)
    && (forall n :: 0 < n < |tree| && Above(node, n) ==> Played(forward, tree, leaves, n))
  }

  ghost predicate SameOutside(a: seq<nat>, b: seq<nat>, node: nat) {
    && |a| == |b|
    && (forall n :: 0 < n < |a| && !Above(node, n) ==> a[n] == b[n])
  }

  lemma LeafBuilt(forward: bool, tree: seq<nat>, leaves: seq<Option<Tagged>>, node: nat, slot: nat)
    requires |tree| == |leaves| && node == |tree| + slot && slot < |tree|
    ensures Built(forward, tree, leaves, node, slot) && SameOutside(tree, tree, node)
  {
  }

  /** The leaves below `node` are the slots `lo..hi`. */
  predicate Spans(node: nat, lo: nat, hi: nat, cap: nat) {
    lo < hi <= cap && PowerOfTwo(hi - lo) && node * (hi - lo) == cap + lo
  }

  lemma Halves(node: nat, lo: nat, hi: nat, cap: nat)
    requires Spans(node, lo, hi, cap) && hi - lo > 1
    ensures
      var mid := (lo + hi) / 2;
      && lo < mid < hi && 0 < node < cap
      && Spans(2 * node, lo, mid, cap) && Spans(2 * node + 1, mid, hi, cap)
  {
    var half := (hi - lo) / 2;
    assert hi - lo == 2 * half && (lo + hi) / 2 == lo + half;
    hide PowerOfTwo;
    HalfSpan(node, half, cap + lo);
  }

  lemma HalfSpan(node: nat, half: nat, total: nat)
    requires half > 0 && node * (2 * half) == total
    ensures 2 * node * half == total && (2 * node + 1) * half == total + half
    ensures 2 * node <= total && (total > 0 ==> node > 0)
  {
    MulMono(1, half, 2 * node);
  }

  lemma LeafSpan(node: nat, lo: nat, hi: nat, cap: nat)
    requires Spans(node, lo, hi, cap) && hi - lo == 1
    ensures node == cap + lo
  {
  }

  lemma RootSpan(cap: nat)
    requires PowerOfTwo(cap)
    ensures Spans(1, 0, cap, cap)
  {
  }

  /** Changes below one child leave the games below the other as they were. */
  lemma KeptBySibling(forward: bool, t1: seq<nat>, t2: seq<nat>, leaves: seq<Option<Tagged>>, node: nat, left: nat)
    requires 0 < node < |t1| && Built(forward, t1, leaves, 2 * node, left) && SameOutside(t1, t2, 2 * node + 1)
    ensures Built(forward, t2, leaves, 2 * node, left)
  {
    forall n | 0 < n < |t1| && Above(2 * node, n)
      ensures t2[n] == t1[n]
    {
      SiblingsApart(node, n);
    }
    SameBelow(forward, t1, t2, leaves, 2 * node, left);
  }

  /** What is built below a node depends on nothing outside. */
  lemma SameBelow(forward: bool, a: seq<nat>, b: seq<nat>, leaves: seq<Option<Tagged>>, node: nat, winner: nat)
    requires |a| == |b| && Built(forward, a, leaves, node, winner)
    requires forall n :: 0 < n < |a| && Above(node, n) ==> a[n] == b[n]
    ensures Built(forward, b, leaves, node, winner)
  {
    hide Played;
    WinFrame(a, b, |a|, node);
    forall n | 0 < n < |a| && Above(node, n)
      ensures Played(forward, b, leaves, n)
    {
      SamePlayed(forward, a, b, leaves, node, n);
    }
  }

  lemma SamePlayed(forward: bool, a: seq<nat>, b: seq<nat>, leaves: seq<Option<Tagged>>, top: nat, n: nat)
    requires |a| == |b| == |leaves| && 0 < top && 0 < n < |a| && Above(top, n) && Played(forward, a, leaves, n)
    requires forall k :: 0 < k < |a| && Above(top, k) ==> a[k] == b[k]
    ensures Played(forward, b, leaves, n)
  {
    hide Win, LeafLess;
    SamePlayers(a, b, top, n);
    assert a[n] == b[n];
  }

  lemma SamePlayers(a: seq<nat>, b: seq<nat>, top: nat, n: nat)
    requires |a| == |b| && 0 < top && 0 < n < |a| && Above(top, n)
    requires forall k :: 0 < k < |a| && Above(top, k) ==> a[k] == b[k]
    ensures Win(a, |a|, 2 * n) == Win(b, |b|, 2 * n) && Win(a, |a|, 2 * n + 1) == Win(b, |b|, 2 * n + 1)
  {
    forall k | 0 < k < |a| && (Above(2 * n, k) || Above(2 * n + 1, k))
      ensures a[k] == b[k]
    {
      SiblingsApart(n, k);
      AboveTrans(top, n, k);
    }
    WinFrame(a, b, |a|, 2 * n);
    WinFrame(a, b, |a|, 2 * n + 1);
  }

  /** Playing the winners of two built children builds their parent. */
  lemma NodeBuilt(forward: bool, t0: seq<nat>, t1: seq<nat>, t2: seq<nat>, leaves: seq<Option<Tagged>>,
                  node: nat, left: nat, right: nat)
    requires 0 < node < |t0| && |leaves| == |t0| && left < |t0| && right < |t0|
    requires Built(forward, t1, leaves, 2 * node, left) && SameOutside(t0, t1, 2 * node)
    requires Built(forward, t2, leaves, 2 * node + 1, right) && SameOutside(t1, t2, 2 * node + 1)
    ensures
      var swap := LeafLess(forward, leaves[right], leaves[left]);
      var after := t2[node := if swap then left else right];
      Built(forward, after, leaves, node, if swap then right else left) && SameOutside(t0, after, node)
  {
    hide Played, LeafLess, Win;
    var swap := LeafLess(forward, leaves[right], leaves[left]);
    var winner, loser := if swap then right else left, if swap then left else right;
    KeptBySibling(forward, t1, t2, leaves, node, left);
    GamePlayed(forward, t2, leaves, node, left, right);
    var after := t2[node := loser];
    forall n | 0 < n < |t0| && Above(node, n)
      ensures Played(forward, after, leaves, n)
    {
      if n != node {
        AboveSplit(node, n);
        assert Played(forward, t2, leaves, n);
        PlayedElsewhere(forward, t2, leaves, node, loser, n);
      }
    }
    forall n | 0 < n < |t0| && !Above(node, n)
      ensures t0[n] == after[n]
    {
      SiblingsApart(node, n);
    }
  }

  lemma GamePlayed(forward: bool, t2: seq<nat>, leaves: seq<Option<Tagged>>, node: nat, left: nat, right: nat)
    requires 0 < node < |t2| && |leaves| == |t2| && left < |t2| && right < |t2|
    requires left == Win(t2, |t2|, 2 * node) && right == Win(t2, |t2|, 2 * node + 1)
    ensures
      var swap := LeafLess(forward, leaves[right], leaves[left]);
      var after := t2[node := if swap then left else right];
      && Played(forward, after, leaves, node)
      && Win(after, |t2|, node) == if swap then right else left
  {
    hide Played, Win;
    var cap := |t2|;
    WinBelow(t2, cap, 2 * node);
    WinBelow(t2, cap, 2 * node + 1);
    SiblingsApart(node, cap + left);
    SiblingsApart(node, node);
    var swap := LeafLess(forward, leaves[right], leaves[left]);
    var loser := if swap then left else right;
    WinElsewhere(t2, node, loser, 2 * node);
    WinElsewhere(t2, node, loser, 2 * node + 1);
    OneGame(forward, t2[node := loser], leaves, node, if swap then right else left, loser);
  }

  lemma RootStored(forward: bool, t0: seq<nat>, tree: seq<nat>, leaves: seq<Option<Tagged>>, node: nat, winner: nat)
    requires |tree| > 0 && Built(forward, tree, leaves, node, winner) && SameOutside(t0, tree, node)
    ensures Built(forward, tree[0 := winner], leaves, node, winner) && SameOutside(t0, tree[0 := winner], node)
  {
    SameBelow(forward, tree, tree[0 := winner], leaves, node, winner);
  }
}
