/** src/ecc.rs: enumerating the sets of shards a recovery declares missing. */
module Combinations {
  import opened Arithmetic

  /** A `k`-subset of `0..n`, ascending. */
  ghost predicate Combination(c: seq<nat>, n: nat) {
    && (forall i :: 0 <= i < |c| ==> c[i] < n)
    && (forall i, j :: 0 <= i < j < |c| ==> c[i] < c[j])
  }

  ghost predicate DiffersAt(a: seq<nat>, b: seq<nat>, i: nat) {
    i < |a| && i < |b| && a[..i] == b[..i] && a[i] < b[i]
  }

  /** Lexicographic order on sequences of the same length. */
  ghost predicate Before(a: seq<nat>, b: seq<nat>) {
    exists i :: DiffersAt(a, b, i)
  }

  /** The largest value position `i` may take. */
  function MaxAt(n: nat, k: nat, i: nat): nat
    requires k <= n
  {
    n - k + i
  }

  lemma {:induction false} Spread(c: seq<nat>, n: nat, i: nat, j: nat)
    requires Combination(c, n) && i <= j < |c|
    ensures c[i] + (j - i) <= c[j]
    decreases j
  {
    if i < j {
      Spread(c, n, i, j - 1);
    }
  }

  lemma FitsBelowMax(c: seq<nat>, n: nat, i: nat)
    requires Combination(c, n) && i < |c|
    ensures |c| <= n && c[i] <= MaxAt(n, |c|, i)
  {
    Spread(c, n, 0, |c| - 1);
    Spread(c, n, i, |c| - 1);
  }

  /** `c` with position `i` advanced and the tail packed behind it. */
  function Bumped(c: seq<nat>, i: nat): (r: seq<nat>)
    requires i < |c|
    ensures |r| == |c|
  {
    seq(|c|, j requires 0 <= j < |c| => if j < i then c[j] else c[i] + 1 + (j - i))
  }

  /** `i` is the last position that can still grow. */
  ghost predicate Pivot(c: seq<nat>, n: nat, i: nat) {
    && i < |c| <= n && c[i] < MaxAt(n, |c|, i)
    && forall j :: i < j < |c| ==> c[j] == MaxAt(n, |c|, j)
  }

  ghost predicate Succeeds(c: seq<nat>, n: nat, b: seq<nat>) {
    exists i: nat :: Pivot(c, n, i) && b == Bumped(c, i)
  }

  ghost predicate Maximal(c: seq<nat>, n: nat) {
    |c| <= n && forall j :: 0 <= j < |c| ==> c[j] == MaxAt(n, |c|, j)
  }

  lemma BumpedIsCombination(c: seq<nat>, n: nat, i: nat)
    requires Combination(c, n) && Pivot(c, n, i)
    ensures Combination(Bumped(c, i), n) && Before(c, Bumped(c, i))
  {
    assert DiffersAt(c, Bumped(c, i), i);
  }

  lemma {:induction false} PointwiseOrder(a: seq<nat>, b: seq<nat>, i: nat)
    requires |a| == |b| && i <= |a| && a[..i] == b[..i]
    requires forall j :: i <= j < |a| ==> a[j] <= b[j]
    ensures a == b || Before(a, b)
    decreases |a| - i
  {
    if i < |a| {
      if a[i] < b[i] {
        assert DiffersAt(a, b, i);
      } else {
        assert a[..i + 1] == a[..i] + [a[i]] && b[..i + 1] == b[..i] + [b[i]];
        PointwiseOrder(a, b, i + 1);
      }
    }
  }

  /** Nothing lies between a combination and its successor. */
  lemma BumpedIsNext(c: seq<nat>, n: nat, i: nat, d: seq<nat>)
    requires Combination(c, n) && Pivot(c, n, i)
    requires Combination(d, n) && |d| == |c| && Before(c, d)
    ensures Bumped(c, i) == d || Before(Bumped(c, i), d)
  {
    var m: nat :| DiffersAt(c, d, m);
    var b := Bumped(c, i);
    FitsBelowMax(d, n, m);
    assert m <= i;
    assert b[..m] == d[..m] by {
      assert b[..m] == c[..m];
    }
    if m < i || d[i] > c[i] + 1 {
      assert DiffersAt(b, d, m);
    } else {
      forall j | i <= j < |d| ensures b[j] <= d[j] {
        Spread(d, n, i, j);
      }
      PointwiseOrder(b, d, i);
    }
  }

  /** No position can grow: this is the last combination. */
  lemma MaximalIsLast(c: seq<nat>, n: nat, d: seq<nat>)
    requires Combination(d, n) && |d| == |c| && Maximal(c, n)
    ensures !Before(c, d)
  {
    if Before(c, d) {
      var m: nat :| DiffersAt(c, d, m);
      FitsBelowMax(d, n, m);
    }
  }

  method NextCombination(combo: array<nat>, n: nat) returns (more: bool)
    requires Combination(combo[..], n)
    modifies combo
    ensures more ==> Succeeds(old(combo[..]), n, combo[..])
    ensures !more ==> combo[..] == old(combo[..]) && Maximal(combo[..], n)
  {
    var k := combo.Length;
    if k == 0 {
      return false;
    }
    ghost var c := combo[..];
    FitsBelowMax(c, n, 0);
    var i := k - 1;
    while true
      invariant 0 <= i < k && combo[..] == c
      invariant forall j :: i < j < k ==> c[j] == MaxAt(n, k, j)
      decreases i
    {
      FitsBelowMax(c, n, i);
      if combo[i] < MaxAt(n, k, i) {
        assert Pivot(c, n, i);
        BumpTail(combo, i);
        return true;
      }
      if i == 0 {
        return false;
      }
      i := i - 1;
    }
  }

  method BumpTail(combo: array<nat>, i: nat)
    requires i < combo.Length
    modifies combo
    ensures combo[..] == Bumped(old(combo[..]), i)
  {
    combo[i] := combo[i] + 1;
    for j := i + 1 to combo.Length
      invariant forall m :: 0 <= m < j ==> combo[m] == Bumped(old(combo[..]), i)[m]
    {
      combo[j] := combo[j - 1] + 1;
    }
  }

  // --- the whole enumeration ---

  function Power(n: nat, k: nat): nat {
    if k == 0 then 1 else n * Power(n, k - 1)
  }

  /** A combination read as a numeral in base `n`: the order, counted. */
  function Numeral(c: seq<nat>, n: nat): nat {
    if c == [] then 0 else Numeral(c[..|c| - 1], n) * n + c[|c| - 1]
  }

  lemma {:induction false} NumeralBound(c: seq<nat>, n: nat)
    requires forall i :: 0 <= i < |c| ==> c[i] < n
    ensures Numeral(c, n) < Power(n, |c|)
  {
    if c != [] {
      NumeralBound(c[..|c| - 1], n);
      MulStrict(Numeral(c[..|c| - 1], n), Power(n, |c| - 1), n);
    }
  }

  lemma {:induction false} NumeralGrows(a: seq<nat>, b: seq<nat>, n: nat)
    requires |a| == |b| && Before(a, b)
    requires forall i :: 0 <= i < |a| ==> a[i] < n && b[i] < n
    ensures Numeral(a, n) < Numeral(b, n)
  {
    var i: nat :| DiffersAt(a, b, i);
    var front, back := a[..|a| - 1], b[..|b| - 1];
    if i == |a| - 1 {
      assert front == back;
    } else {
      assert front[..i] == a[..i] && back[..i] == b[..i];
      assert DiffersAt(front, back, i);
      NumeralGrows(front, back, n);
      MulStrict(Numeral(front, n), Numeral(back, n), n);
    }
  }

  lemma {:induction false} Trichotomy(a: seq<nat>, b: seq<nat>, i: nat)
    requires |a| == |b| && i <= |a| && a[..i] == b[..i]
    ensures a == b || Before(a, b) || Before(b, a)
    decreases |a| - i
  {
    if i < |a| {
      if a[i] == b[i] {
        assert a[..i + 1] == a[..i] + [a[i]] && b[..i + 1] == b[..i] + [b[i]];
        Trichotomy(a, b, i + 1);
      } else {
        assert DiffersAt(a, b, i) || DiffersAt(b, a, i);
      }
    }
  }

  lemma BeforeTransitive(a: seq<nat>, b: seq<nat>, c: seq<nat>)
    requires |a| == |b| == |c| && Before(a, b) && Before(b, c)
    ensures Before(a, c)
  {
    var i: nat, j: nat :| DiffersAt(a, b, i) && DiffersAt(b, c, j);
    var m := if i < j then i else j;
    assert a[..m] == a[..i][..m] && b[..m] == b[..i][..m] == b[..j][..m] && c[..m] == c[..j][..m];
    assert b[m] == if m < i then a[m] else b[m];
    assert DiffersAt(a, c, m);
  }

  function First(k: nat): (r: seq<nat>)
    ensures |r| == k
  {
    seq(k, i requires 0 <= i < k => i)
  }

  lemma FirstIsFirst(k: nat, n: nat, d: seq<nat>)
    requires k <= n
    ensures Combination(First(k), n)
    ensures Combination(d, n) && |d| == k ==> d == First(k) || Before(First(k), d)
  {
    if Combination(d, n) && |d| == k {
      forall j | 0 <= j < k ensures First(k)[j] <= d[j] {
        Spread(d, n, 0, j);
      }
      PointwiseOrder(First(k), d, 0);
    }
  }

  /** `visited` are the combinations up to and including `last`, in order, each once. */
  ghost predicate VisitedTo(visited: seq<seq<nat>>, n: nat, k: nat, last: seq<nat>) {
    && (forall i, j :: 0 <= i < j < |visited| ==> Before(visited[i], visited[j]))
    && (forall d :: d in visited <==> Combination(d, n) && |d| == k && (d == last || Before(d, last)))
  }

  lemma NothingBeforeFirst(k: nat, n: nat, d: seq<nat>)
    requires k <= n && Combination(d, n) && |d| == k
    ensures !Before(d, First(k))
  {
    FirstIsFirst(k, n, d);
    if Before(d, First(k)) {
      NumeralGrows(d, First(k), n);
      if d != First(k) {
        NumeralGrows(First(k), d, n);
      }
    }
  }

  lemma VisitFirst(n: nat, k: nat)
    requires k <= n
    ensures Combination(First(k), n) && VisitedTo([First(k)], n, k, First(k))
  {
    hide Before, First;
    FirstIsFirst(k, n, []);
    forall d | Combination(d, n) && |d| == k ensures !Before(d, First(k)) {
      NothingBeforeFirst(k, n, d);
    }
  }

  lemma SuccessorIsCombination(c: seq<nat>, n: nat, b: seq<nat>)
    requires Combination(c, n) && Succeeds(c, n, b)
    ensures Combination(b, n) && |b| == |c| && Before(c, b)
    ensures Numeral(c, n) < Numeral(b, n) < Power(n, |c|)
  {
    hide Before;
    var i: nat :| Pivot(c, n, i) && b == Bumped(c, i);
    BumpedIsCombination(c, n, i);
    NumeralGrows(c, b, n);
    NumeralBound(b, n);
  }

  lemma BetweenNeighbours(c: seq<nat>, n: nat, b: seq<nat>, d: seq<nat>)
    requires Combination(c, n) && Succeeds(c, n, b) && Combination(d, n) && |d| == |c|
    ensures Before(d, b) <==> d == c || Before(d, c)
  {
    hide Before, Numeral, Power;
    SuccessorIsCombination(c, n, b);
    if Before(d, c) {
      BeforeTransitive(d, c, b);
    }
    Trichotomy(c, d, 0);
    if Before(d, b) && Before(c, d) {
      var i: nat :| Pivot(c, n, i) && b == Bumped(c, i);
      BumpedIsNext(c, n, i, d);
      NumeralGrows(d, b, n);
      if Before(b, d) {
        NumeralGrows(b, d, n);
      }
    }
  }

  /** Stepping to the successor visits one more, and misses none. */
  lemma VisitNext(visited: seq<seq<nat>>, n: nat, c: seq<nat>, b: seq<nat>)
    requires Combination(c, n) && Succeeds(c, n, b) && VisitedTo(visited, n, |c|, c)
    ensures VisitedTo(visited + [b], n, |c|, b)
  {
    hide Succeeds, Combination, Before, Numeral, Power;
    SuccessorIsCombination(c, n, b);
    forall d | Combination(d, n) && |d| == |c| ensures Before(d, b) <==> d in visited {
      BetweenNeighbours(c, n, b, d);
    }
    forall j | 0 <= j < |visited| ensures Before(visited[j], b) {
      assert visited[j] in visited;
    }
  }

  lemma VisitedAll(visited: seq<seq<nat>>, n: nat, c: seq<nat>, d: seq<nat>)
    requires Maximal(c, n) && VisitedTo(visited, n, |c|, c)
    requires Combination(d, n) && |d| == |c|
    ensures d in visited
  {
    MaximalIsLast(c, n, d);
    Trichotomy(c, d, 0);
  }

  /** What declaring one set of shards missing leads to. */
  datatype Attempt<T> = EngineError | Rejected | Accepted(payload: T)

  /** Every combination before `last` was tried, in order, and rejected. */
  ghost predicate RejectedBefore<T>(attempt: seq<nat> -> Attempt<T>, visited: seq<seq<nat>>, n: nat, k: nat, last: seq<nat>) {
    && |last| == k && Combination(last, n) && VisitedTo(visited, n, k, last)
    && |visited| > 0 && visited[|visited| - 1] == last
    && (forall i :: 0 <= i < |visited| - 1 ==> attempt(visited[i]) == Rejected)
  }

  lemma RejectedNext<T>(attempt: seq<nat> -> Attempt<T>, visited: seq<seq<nat>>, n: nat, k: nat, c: seq<nat>, b: seq<nat>)
    requires RejectedBefore(attempt, visited, n, k, c) && attempt(c) == Rejected && Succeeds(c, n, b)
    ensures RejectedBefore(attempt, visited + [b], n, k, b)
    ensures Numeral(c, n) < Numeral(b, n) < Power(n, k)
  {
    hide Succeeds, Combination, VisitedTo, Before, Numeral, Power;
    VisitNext(visited, n, c, b);
    SuccessorIsCombination(c, n, b);
  }

  /** Tries the sets of `k` missing shards out of `n` until one is not rejected. */
  method TryMissingSets<T>(n: nat, k: nat, attempt: seq<nat> -> Attempt<T>)
    returns (r: Attempt<T>, ghost visited: seq<seq<nat>>)
    requires k <= n
    ensures visited != [] && RejectedBefore(attempt, visited, n, k, visited[|visited| - 1])
    ensures r == attempt(visited[|visited| - 1])
    ensures r == Rejected ==> forall d :: Combination(d, n) && |d| == k ==> attempt(d) == Rejected
  {
    hide Combination, VisitedTo, Numeral, Power, Succeeds, Maximal, Before;
    var missing := new nat[k](i => i);
    visited := [missing[..]];
    assert missing[..] == First(k);
    VisitFirst(n, k);
    while true
      invariant RejectedBefore(attempt, visited, n, k, missing[..])
      decreases Power(n, k) - Numeral(missing[..], n)
    {
      ghost var c := missing[..];
      r := attempt(missing[..]);
      if r != Rejected {
        return;
      }
      var more := NextCombination(missing, n);
      if !more {
        AllRejected(attempt, visited, n, k, c);
        return;
      }
      RejectedNext(attempt, visited, n, k, c, missing[..]);
      visited := visited + [missing[..]];
    }
  }

  lemma AllRejected<T>(attempt: seq<nat> -> Attempt<T>, visited: seq<seq<nat>>, n: nat, k: nat, c: seq<nat>)
    requires RejectedBefore(attempt, visited, n, k, c) && attempt(c) == Rejected && Maximal(c, n)
    ensures forall d :: Combination(d, n) && |d| == k ==> attempt(d) == Rejected
  {
    hide Combination, VisitedTo, Maximal;
    forall d | Combination(d, n) && |d| == k ensures attempt(d) == Rejected {
      VisitedAll(visited, n, c, d);
    }
  }
}
