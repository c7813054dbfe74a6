/**
 The invariant of a loser tree, on values. Nodes are numbered as in a heap: node
 `n` plays the winners of `2n` and `2n + 1`, and leaf slot `s` is node `cap + s`.
 */
module LoserTheory {
  import opened Core
  import opened MergeSpec

  /** `Less` under the tournament's comparator: forward the smaller entry wins,
      backward the greater. */
  predicate Beats(forward: bool, a: Tagged, b: Tagged) {
    if forward then TaggedLess(a, b) else TaggedLess(b, a)
  }

  /** An exhausted leaf loses to every present one and ties with its like. */
  predicate LeafLess(forward: bool, a: Option<Tagged>, b: Option<Tagged>) {
    a.Some? && (b.None? || Beats(forward, a.value, b.value))
  }

  lemma LeafLessWeakOrder(forward: bool, a: Option<Tagged>, b: Option<Tagged>, c: Option<Tagged>)
    requires !LeafLess(forward, b, a) && !LeafLess(forward, c, b)
    ensures !LeafLess(forward, c, a)
  {
  }

  /** `a` is `x` or above it. */
  predicate Above(a: nat, x: nat) {
    a == x || (a < x && Above(a, x / 2))
  }

  lemma {:induction false} AboveTrans(a: nat, b: nat, c: nat)
    requires Above(a, b) && Above(b, c)
    ensures Above(a, c) && a <= b
  {
    if b < c {
      AboveTrans(a, b, c / 2);
    }
  }

  /** What is below a node is the node itself or below one of its children. */
  lemma {:induction false} AboveSplit(n: nat, x: nat)
    requires n > 0 && Above(n, x)
    ensures x == n || (Above(2 * n, x) || Above(2 * n + 1, x))
  {
    if n < x {
      AboveSplit(n, x / 2);
    }
  }

  /** Two nodes above the same node lie on one path. */
  lemma {:induction false} AboveChain(a: nat, b: nat, x: nat)
    requires Above(a, x) && Above(b, x) && a <= b
    ensures Above(a, b)
  {
    if b < x {
      AboveChain(a, b, x / 2);
    }
  }

  lemma SiblingsApart(n: nat, x: nat)
    requires n > 0
    ensures !(Above(2 * n, x) && Above(2 * n + 1, x))
    ensures Above(2 * n, x) || Above(2 * n + 1, x) ==> Above(n, x)
  {
    if Above(2 * n, x) && Above(2 * n + 1, x) {
      AboveChain(2 * n, 2 * n + 1, x);
      assert false;
    }
    if Above(2 * n, x) {
      AboveTrans(n, 2 * n, x);
    }
    if Above(2 * n + 1, x) {
      AboveTrans(n, 2 * n + 1, x);
    }
  }

  lemma {:induction false} RootAbove(x: nat)
    requires x > 0
    ensures Above(1, x)
  {
    if x > 1 {
      RootAbove(x / 2);
    }
  }

  // --- winners ---

  /** The leaf that a node's stored losers leave as its winner. */
  function Win(tree: seq<nat>, cap: nat, node: nat): nat
    requires |tree| == cap && node > 0
    decreases 2 * cap - node
  {
    if node >= cap then node - cap
    else
      var l, r := Win(tree, cap, 2 * node), Win(tree, cap, 2 * node + 1);
      if tree[node] == l then r else l
  }

  /** The game at a node: its children's winners met, and the better one won. */
  ghost predicate Played(forward: bool, tree: seq<nat>, leaves: seq<Option<Tagged>>, node: nat)
    requires |tree| == |leaves| && 0 < node < |tree|
  {
    var cap := |tree|;
    var l, r := Win(tree, cap, 2 * node), Win(tree, cap, 2 * node + 1);
    && (tree[node] == l || tree[node] == r)
    && l < cap && r < cap
    && !LeafLess(forward, leaves[if tree[node] == l then l else r], leaves[if tree[node] == l then r else l])
  }

  ghost predicate Tournament(forward: bool, tree: seq<nat>, leaves: seq<Option<Tagged>>) {
    && |tree| == |leaves| > 1
    && (forall n :: 0 < n < |tree| ==> Played(forward, tree, leaves, n))
    && tree[0] == Win(tree, |tree|, 1)
  }

  /** A node's winner is one of the leaves below it. */
  lemma {:induction false} WinBelow(tree: seq<nat>, cap: nat, node: nat)
    requires |tree| == cap && 0 < node < 2 * cap
    ensures Win(tree, cap, node) < cap && Above(node, cap + Win(tree, cap, node))
    decreases 2 * cap - node
  {
    if node < cap {
      WinBelow(tree, cap, 2 * node);
      WinBelow(tree, cap, 2 * node + 1);
      SiblingsApart(node, cap + Win(tree, cap, node));
    }
  }

  /** Winners only depend on the losers stored below. */
  lemma {:induction false} WinFrame(tree: seq<nat>, other: seq<nat>, cap: nat, node: nat)
    requires |tree| == |other| == cap && node > 0
    requires forall n :: 0 < n < cap && Above(node, n) ==> tree[n] == other[n]
    ensures Win(tree, cap, node) == Win(other, cap, node)
    decreases 2 * cap - node
  {
    if node < cap {
      forall n | 0 < n < cap && (Above(2 * node, n) || Above(2 * node + 1, n))
        ensures tree[n] == other[n]
      {
        SiblingsApart(node, n);
      }
      WinFrame(tree, other, cap, 2 * node);
      WinFrame(tree, other, cap, 2 * node + 1);
    }
  }

  /** No leaf below a node beats the node's winner. */
  lemma {:induction false} WinnerIsLeast(forward: bool, tree: seq<nat>, leaves: seq<Option<Tagged>>, node: nat, slot: nat)
    requires |tree| == |leaves| && 0 < node < 2 * |tree| && slot < |tree| && Above(node, |tree| + slot)
    requires forall n :: 0 < n < |tree| && Above(node, n) ==> Played(forward, tree, leaves, n)
    ensures Win(tree, |tree|, node) < |tree|
    ensures !LeafLess(forward, leaves[slot], leaves[Win(tree, |tree|, node)])
    decreases 2 * |tree| - node
  {
    var cap := |tree|;
    WinBelow(tree, cap, node);
    if node >= cap {
      assert node == cap + slot;
    } else {
      AboveSplit(node, cap + slot);
      var child := if Above(2 * node, cap + slot) then 2 * node else 2 * node + 1;
      forall n | 0 < n < cap && Above(child, n)
        ensures Played(forward, tree, leaves, n)
      {
        SiblingsApart(node, n);
      }
      WinnerIsLeast(forward, tree, leaves, child, slot);
      assert Played(forward, tree, leaves, node);
      LeafLessWeakOrder(forward, leaves[Win(tree, cap, node)], leaves[Win(tree, cap, child)], leaves[slot]);
    }
  }

  // --- replaying a path ---

  ghost predicate InTree(tree: seq<nat>) {
    forall i :: 0 <= i < |tree| ==> tree[i] < |tree|
  }

  /** The tree after replaying from `node` up with running winner `w`. */
  function Replayed(forward: bool, tree: seq<nat>, leaves: seq<Option<Tagged>>, node: nat, w: nat): seq<nat>
    requires |tree| == |leaves| > 1 && node < |tree| && w < |tree| && InTree(tree)
    decreases node
  {
    if node == 0 then tree[0 := w]
    else if LeafLess(forward, leaves[tree[node]], leaves[w])
    then Replayed(forward, tree[node := w], leaves, node / 2, tree[node])
    else Replayed(forward, tree, leaves, node / 2, w)
  }

  /** The child of `a` that is not on the path down to `c`. */
  function OffPath(a: nat, c: nat): nat {
    if Above(2 * a, c) then 2 * a + 1 else 2 * a
  }

  /** Every game stands except those above `c`, where the loser is still the
      winner of the side away from `c`. */
  ghost predicate Repairable(forward: bool, tree: seq<nat>, leaves: seq<Option<Tagged>>, c: nat, w: nat) {
    && |tree| == |leaves| > 1 && InTree(tree)
    && 0 < c < 2 * |tree|
    && w == Win(tree, |tree|, c)
    && (forall n :: 0 < n < |tree| && !(n < c && Above(n, c)) ==> Played(forward, tree, leaves, n))
    && (forall a :: 0 < a < c && Above(a, c) ==> a < |tree| && tree[a] == Win(tree, |tree|, OffPath(a, c)))
  }

  /** Storing a loser at a node only changes the winners above it. */
  lemma WinElsewhere(tree: seq<nat>, node: nat, w: nat, x: nat)
    requires 0 < node < |tree| && x > 0 && !Above(x, node)
    ensures Win(tree[node := w], |tree|, x) == Win(tree, |tree|, x)
  {
    WinFrame(tree, tree[node := w], |tree|, x);
  }

  lemma PlayedElsewhere(forward: bool, tree: seq<nat>, leaves: seq<Option<Tagged>>, node: nat, w: nat, n: nat)
    requires |tree| == |leaves| && 0 < node < |tree| && 0 < n < |tree| && n != node && !Above(n, node)
    requires Played(forward, tree, leaves, n)
    ensures Played(forward, tree[node := w], leaves, n)
  {
    SiblingsApart(n, node);
    WinElsewhere(tree, node, w, 2 * n);
    WinElsewhere(tree, node, w, 2 * n + 1);
  }

  /** Where a path leads does not depend on where on it one starts. */
  lemma OffPathUp(a: nat, c: nat)
    requires c > 1 && 0 < a < c / 2 && Above(a, c / 2)
    ensures OffPath(a, c) == OffPath(a, c / 2) && !Above(OffPath(a, c), c / 2) && Above(a, c)
  {
    AboveSplit(a, c / 2);
    SiblingsApart(a, c / 2);
    SiblingsApart(a, c);
  }

  lemma SiblingOf(c: nat)
    requires c > 1
    ensures OffPath(c / 2, c) == if c % 2 == 0 then c + 1 else c - 1
    ensures !Above(c, c / 2) && !Above(OffPath(c / 2, c), c / 2)
    ensures Above(c / 2, c)
  {
    SiblingsApart(c / 2, c);
  }

  /** The two players at the node above a repaired child. */
  lemma RepairPlayers(forward: bool, tree: seq<nat>, leaves: seq<Option<Tagged>>, c: nat, w: nat)
    requires Repairable(forward, tree, leaves, c, w) && c > 1
    ensures w < |tree| == |leaves| && c / 2 < |tree| && w != tree[c / 2] < |tree|
    ensures
      var node := c / 2;
      var cap, other := |tree|, tree[node];
      forall after :: after == tree || after == tree[node := w] ==>
        if c % 2 == 0 then Win(after, cap, 2 * node) == w && Win(after, cap, 2 * node + 1) == other
        else Win(after, cap, 2 * node) == other && Win(after, cap, 2 * node + 1) == w
  {
    hide Played, Win;
    var cap, node := |tree|, c / 2;
    SiblingOf(c);
    var sib := OffPath(node, c);
    assert node < cap && tree[node] == Win(tree, cap, sib);
    WinBelow(tree, cap, c);
    WinBelow(tree, cap, sib);
    SiblingsApart(node, cap + w);
    WinElsewhere(tree, node, w, c);
    WinElsewhere(tree, node, w, sib);
  }

  /** `b` lost to `a` at this node. */
  lemma OneGame(forward: bool, tree: seq<nat>, leaves: seq<Option<Tagged>>, node: nat, a: nat, b: nat)
    requires |tree| == |leaves| && 0 < node < |tree| && a < |tree| && b < |tree| && a != b
    requires tree[node] == b && !LeafLess(forward, leaves[b], leaves[a])
    requires
      var l, r := Win(tree, |tree|, 2 * node), Win(tree, |tree|, 2 * node + 1);
      (l == a && r == b) || (l == b && r == a)
    ensures Played(forward, tree, leaves, node) && Win(tree, |tree|, node) == a
  {
  }

  /** The game between a repaired child and its sibling. */
  lemma RepairGame(forward: bool, tree: seq<nat>, leaves: seq<Option<Tagged>>, c: nat, w: nat)
    requires Repairable(forward, tree, leaves, c, w) && c > 1
    ensures w < |tree| == |leaves| && c / 2 < |tree| && tree[c / 2] < |tree|
    ensures
      var node := c / 2;
      var other := tree[node];
      var swap := LeafLess(forward, leaves[other], leaves[w]);
      var after := if swap then tree[node := w] else tree;
      && Played(forward, after, leaves, node)
      && Win(after, |tree|, node) == if swap then other else w
  {
    hide Repairable, Played, Win, Above;
    RepairPlayers(forward, tree, leaves, c, w);
    var node := c / 2;
    var other := tree[node];
    if LeafLess(forward, leaves[other], leaves[w]) {
      OneGame(forward, tree[node := w], leaves, node, other, w);
    } else {
      OneGame(forward, tree, leaves, node, w, other);
    }
  }

  lemma RepairStep(forward: bool, tree: seq<nat>, leaves: seq<Option<Tagged>>, c: nat, w: nat)
    requires Repairable(forward, tree, leaves, c, w) && c > 1
    ensures w < |tree| && c / 2 < |tree|
    ensures
      var node := c / 2;
      var other := tree[node];
      var swap := LeafLess(forward, leaves[other], leaves[w]);
      Repairable(forward, if swap then tree[node := w] else tree, leaves, node, if swap then other else w)
  {
    hide Played, Win, LeafLess;
    RepairGame(forward, tree, leaves, c, w);
    var node := c / 2;
    var swap := LeafLess(forward, leaves[tree[node]], leaves[w]);
    var after := if swap then tree[node := w] else tree;
    forall n | 0 < n < |tree| && !(n < node && Above(n, node))
      ensures Played(forward, after, leaves, n)
    {
      if n != node {
        assert Above(n, node) ==> n < node;
        assert !(n < c && Above(n, c));
        assert Played(forward, tree, leaves, n);
        PlayedElsewhere(forward, tree, leaves, node, w, n);
      }
    }
    forall a | 0 < a < node && Above(a, node)
      ensures after[a] == Win(after, |tree|, OffPath(a, node))
    {
      OffPathUp(a, c);
      WinElsewhere(tree, node, w, OffPath(a, c));
    }
  }

  /** Replaying the whole path repairs the tournament. */
  lemma {:induction false} ReplayRepairs(forward: bool, tree: seq<nat>, leaves: seq<Option<Tagged>>, c: nat, w: nat)
    requires Repairable(forward, tree, leaves, c, w)
    ensures w < |tree| && c / 2 < |tree|
    ensures Tournament(forward, Replayed(forward, tree, leaves, c / 2, w), leaves)
    decreases c
  {
    var cap := |tree|;
    WinBelow(tree, cap, c);
    if c == 1 {
      var after := tree[0 := w];
      forall n | 0 < n < cap
        ensures Played(forward, after, leaves, n)
      {
        assert Played(forward, tree, leaves, n);
        WinFrame(tree, after, cap, 2 * n);
        WinFrame(tree, after, cap, 2 * n + 1);
      }
      WinFrame(tree, after, cap, 1);
    } else {
      RepairStep(forward, tree, leaves, c, w);
      var node := c / 2;
      var swap := LeafLess(forward, leaves[tree[node]], leaves[w]);
      ReplayRepairs(forward, if swap then tree[node := w] else tree, leaves, node, if swap then tree[node] else w);
    }
  }

  // --- replaying from the winner, and from anywhere else ---

  lemma LosersInTree(forward: bool, tree: seq<nat>, leaves: seq<Option<Tagged>>)
    requires Tournament(forward, tree, leaves)
    ensures InTree(tree)
  {
    forall i | 0 <= i < |tree|
      ensures tree[i] < |tree|
    {
      if i == 0 {
        WinBelow(tree, |tree|, 1);
      } else {
        assert Played(forward, tree, leaves, i);
      }
    }
  }

  /** The overall winner won every game on its path. */
  lemma {:induction false} PathWins(forward: bool, tree: seq<nat>, leaves: seq<Option<Tagged>>, a: nat)
    requires Tournament(forward, tree, leaves)
    requires 0 < a < 2 * |tree| && Above(a, |tree| + tree[0])
    ensures Win(tree, |tree|, a) == tree[0]
    decreases a
  {
    var cap, s := |tree|, tree[0];
    if a > 1 {
      var p := a / 2;
      AboveTrans(p, a, cap + s);
      PathWins(forward, tree, leaves, p);
      SiblingOf(a);
      var sib := OffPath(p, a);
      WinBelow(tree, cap, sib);
      SiblingsApart(p, cap + s);
      assert Win(tree, cap, sib) != s;
    }
  }

  /** The overall winner is nowhere stored as a loser. */
  lemma WinnerNotStored(forward: bool, tree: seq<nat>, leaves: seq<Option<Tagged>>, n: nat)
    requires Tournament(forward, tree, leaves) && 0 < n < |tree|
    ensures tree[n] != tree[0]
  {
    var cap, s := |tree|, tree[0];
    if tree[n] == s {
      assert Played(forward, tree, leaves, n);
      WinBelow(tree, cap, 2 * n);
      WinBelow(tree, cap, 2 * n + 1);
      SiblingsApart(n, cap + s);
      PathWins(forward, tree, leaves, n);
      assert false;
    }
  }

  /** Whatever happens to the winner's leaf, only its own path needs replaying. */
  lemma WinnerRepairable(forward: bool, tree: seq<nat>, leaves: seq<Option<Tagged>>, v: Option<Tagged>)
    requires Tournament(forward, tree, leaves) && |tree| == |leaves| > 1 && tree[0] < |tree|
    ensures Repairable(forward, tree, leaves[tree[0] := v], |tree| + tree[0], tree[0])
  {
    hide Played, Win, Tournament;
    var s := tree[0];
    var c, after := |tree| + s, leaves[s := v];
    LosersInTree(forward, tree, leaves);
    assert Win(tree, |tree|, c) == s by { WinAtLeaf(tree, c); }
    forall n | 0 < n < |tree| && !(n < c && Above(n, c))
      ensures Played(forward, tree, after, n)
    {
      PlayedIn(forward, tree, leaves, n);
      AwayFrom(forward, tree, leaves, s, v, n);
    }
    forall a | 0 < a < c && Above(a, c)
      ensures a < |tree| && tree[a] == Win(tree, |tree|, OffPath(a, c))
    {
      LoserOffPath(forward, tree, leaves, a);
    }
  }

  lemma WinAtLeaf(tree: seq<nat>, node: nat)
    requires 0 < node && |tree| <= node
    ensures Win(tree, |tree|, node) == node - |tree|
  {
  }

  lemma PlayedIn(forward: bool, tree: seq<nat>, leaves: seq<Option<Tagged>>, n: nat)
    requires Tournament(forward, tree, leaves) && 0 < n < |tree|
    ensures Played(forward, tree, leaves, n)
  {
  }

  lemma AwayFrom(forward: bool, tree: seq<nat>, leaves: seq<Option<Tagged>>, s: nat, v: Option<Tagged>, n: nat)
    requires |tree| == |leaves| && 0 < n < |tree| && s < |tree| && Played(forward, tree, leaves, n)
    requires !Above(n, |tree| + s)
    ensures Played(forward, tree, leaves[s := v], n)
  {
    var cap := |tree|;
    WinBelow(tree, cap, 2 * n);
    WinBelow(tree, cap, 2 * n + 1);
    SiblingsApart(n, cap + s);
  }

  lemma LoserOffPath(forward: bool, tree: seq<nat>, leaves: seq<Option<Tagged>>, a: nat)
    requires Tournament(forward, tree, leaves) && tree[0] < |tree|
    requires 0 < a < |tree| + tree[0] && Above(a, |tree| + tree[0])
    ensures a < |tree| && tree[a] == Win(tree, |tree|, OffPath(a, |tree| + tree[0]))
  {
    var cap, s := |tree|, tree[0];
    AboveHalf(a, cap + s);
    assert Played(forward, tree, leaves, a);
    WinnerNotStored(forward, tree, leaves, a);
    AboveSplit(a, cap + s);
    SiblingsApart(a, cap + s);
    var child := if Above(2 * a, cap + s) then 2 * a else 2 * a + 1;
    PathWins(forward, tree, leaves, child);
  }

  lemma AboveHalf(a: nat, x: nat)
    requires a < x && Above(a, x)
    ensures a <= x / 2
  {
  }

  /** Replacing or removing the winner and replaying its path keeps the tournament. */
  lemma ReplayFromWinner(forward: bool, tree: seq<nat>, leaves: seq<Option<Tagged>>, v: Option<Tagged>)
    requires Tournament(forward, tree, leaves)
    ensures tree[0] < |tree| && InTree(tree)
    ensures
      var after := leaves[tree[0] := v];
      Tournament(forward, Replayed(forward, tree, after, (|tree| + tree[0]) / 2, tree[0]), after)
  {
    hide Repairable;
    LosersInTree(forward, tree, leaves);
    WinnerRepairable(forward, tree, leaves, v);
    ReplayRepairs(forward, tree, leaves[tree[0] := v], |tree| + tree[0], tree[0]);
  }

  /** A slot stored nowhere on the way cannot be elected. */
  lemma {:induction false} ReplayNeverElects(forward: bool, tree: seq<nat>, leaves: seq<Option<Tagged>>,
                                             node: nat, w: nat, x: nat)
    requires |tree| == |leaves| > 1 && node < |tree| && w < |tree| && InTree(tree)
    requires x != w && forall n :: 0 < n < |tree| ==> tree[n] != x
    ensures |Replayed(forward, tree, leaves, node, w)| == |tree| && Replayed(forward, tree, leaves, node, w)[0] != x
    ensures InTree(Replayed(forward, tree, leaves, node, w))
    decreases node
  {
    if node > 0 {
      if LeafLess(forward, leaves[tree[node]], leaves[w]) {
        ReplayNeverElects(forward, tree[node := w], leaves, node / 2, tree[node], x);
      } else {
        ReplayNeverElects(forward, tree, leaves, node / 2, w, x);
      }
    }
  }

  /** Each leaf belongs to the source of its slot. */
  ghost predicate Slotted(leaves: seq<Option<Tagged>>) {
    forall i :: 0 <= i < |leaves| && leaves[i].Some? ==> leaves[i].value.source == i
  }

  /** In a tournament of sources the winner strictly beats every other leaf. */
  lemma WinnerBeatsRest(forward: bool, tree: seq<nat>, leaves: seq<Option<Tagged>>, slot: nat)
    requires Tournament(forward, tree, leaves) && Slotted(leaves) && slot < |tree|
    ensures tree[0] < |tree|
    ensures !LeafLess(forward, leaves[slot], leaves[tree[0]])
    ensures slot != tree[0] && leaves[slot].Some? ==> LeafLess(forward, leaves[tree[0]], leaves[slot])
  {
    RootAbove(|tree| + slot);
    WinnerIsLeast(forward, tree, leaves, 1, slot);
  }

  /** Emptying a present slot and replaying its path leaves a tournament exactly
      when the slot was the winner's. */
  lemma TakeSlotExact(forward: bool, tree: seq<nat>, leaves: seq<Option<Tagged>>, slot: nat)
    requires Tournament(forward, tree, leaves) && Slotted(leaves)
    requires slot < |tree| && leaves[slot].Some?
    ensures InTree(tree)
    ensures Tournament(forward, Replayed(forward, tree, leaves[slot := None], (|tree| + slot) / 2, slot), leaves[slot := None])
       <==> slot == tree[0]
  {
    LosersInTree(forward, tree, leaves);
    var after, rest := Replayed(forward, tree, leaves[slot := None], (|tree| + slot) / 2, slot), leaves[slot := None];
    if slot == tree[0] {
      ReplayFromWinner(forward, tree, leaves, None);
    } else if Tournament(forward, after, rest) {
      NonWinnerOrphans(forward, tree, leaves, slot);
      WinnerBeatsRest(forward, after, rest, tree[0]);
      assert false;
    }
  }

  /** Replayed from a slot that is not the winner's, the tree elects another slot
      although the winner is still present and better. */
  lemma NonWinnerOrphans(forward: bool, tree: seq<nat>, leaves: seq<Option<Tagged>>, slot: nat)
    requires Tournament(forward, tree, leaves) && Slotted(leaves)
    requires slot < |tree| && leaves[slot].Some? && slot != tree[0]
    ensures InTree(tree) && tree[0] < |tree|
    ensures
      var after, rest := Replayed(forward, tree, leaves[slot := None], (|tree| + slot) / 2, slot), leaves[slot := None];
      && |after| == |tree| && after[0] < |tree| && after[0] != tree[0]
      && LeafLess(forward, rest[tree[0]], rest[after[0]])
  {
    hide Played, Win;
    LosersInTree(forward, tree, leaves);
    forall n | 0 < n < |tree|
      ensures tree[n] != tree[0]
    {
      WinnerNotStored(forward, tree, leaves, n);
    }
    var rest := leaves[slot := None];
    ReplayNeverElects(forward, tree, rest, (|tree| + slot) / 2, slot, tree[0]);
    var after := Replayed(forward, tree, rest, (|tree| + slot) / 2, slot);
    WinnerBeatsRest(forward, tree, leaves, slot);
    WinnerBeatsRest(forward, tree, leaves, after[0]);
  }

  // --- powers of two, and the length of a path ---

  predicate PowerOfTwo(n: nat) {
    n == 1 || (n > 1 && n % 2 == 0 && PowerOfTwo(n / 2))
  }

  function Log2(n: nat): nat
    requires PowerOfTwo(n)
  {
    if n == 1 then 0 else 1 + Log2(n / 2)
  }

  /** The least power of two from `c` up that holds `n` slots. */
  function GrowTo(c: nat, n: nat): (r: nat)
    requires PowerOfTwo(c)
    ensures PowerOfTwo(r) && c <= r && n <= r && (r > c ==> r < 2 * n)
    decreases n - c
  {
    if c >= n then c else GrowTo(2 * c, n)
  }

  /** The games played from a node up to the root. */
  function Games(node: nat): nat {
    if node == 0 then 0 else 1 + Games(node / 2)
  }

  lemma {:induction false} GamesToRoot(cap: nat, x: nat)
    requires PowerOfTwo(cap) && cap <= x < 2 * cap
    ensures Games(x) == 1 + Log2(cap)
  {
    if cap > 1 {
      GamesToRoot(cap / 2, x / 2);
    }
  }
}
