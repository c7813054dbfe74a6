/**
 Entities shared by every stage of a snapshot read: entries, their order, and
 the one contract that every double-ended stage is proved against, "a deque of
 the remaining items".
 */
module Core {

  datatype Option<+T> = None | Some(value: T)

  /** A user key, identified with its place in the comparator's order. Stages
      only ever compare keys, and `Comparator.RankEmbeds` shows that every strict
      total order on the keys of a run has such places. */
  type Key = int

  type SeqNo = nat

  type byte = bv8

  type UserValue = seq<byte>

  datatype ValueType = Value | Tombstone | WeakTombstone | MergeOperand | Indirection {
    predicate IsTombstone() { Tombstone? || WeakTombstone? }
  }

  datatype Entry = Entry(key: Key, seqno: SeqNo, kind: ValueType, value: UserValue)

  /** `Less` in the internal-key order: user key ascending, newest version first. */
  predicate EntryLess(a: Entry, b: Entry) {
    a.key < b.key || (a.key == b.key && a.seqno > b.seqno)
  }

  /** The internal-key order lets equal keys with equal seqnos stand in any order. */
  ghost predicate Ordered(s: seq<Entry>) {
    forall i, j :: 0 <= i < j < |s| ==> !EntryLess(s[j], s[i])
  }

  /** What a scan hands out: a row, or the merge operator's failure for one key. */
  datatype Item = Row(entry: Entry) | MergeFailed

  // --- the deque contract ---

  ghost predicate PoppedFront<T>(before: seq<T>, r: Option<T>, after: seq<T>) {
    if before == [] then r == None && after == []
    else r == Some(before[0]) && after == before[1..]
  }

  ghost predicate PoppedBack<T>(before: seq<T>, r: Option<T>, after: seq<T>) {
    if before == [] then r == None && after == []
    else r == Some(before[|before| - 1]) && after == before[..|before| - 1]
  }

  ghost predicate PoppedEnd<T>(forward: bool, before: seq<T>, r: Option<T>, after: seq<T>) {
    if forward then PoppedFront(before, r, after) else PoppedBack(before, r, after)
  }

  /** What a deque of `items` answers to a list of calls, `true` for the front. */
  function Served<T>(items: seq<T>, calls: seq<bool>): seq<Option<T>>
    decreases |calls|
  {
    if calls == [] then []
    else if items == [] then [None] + Served([], calls[1..])
    else if calls[0] then [Some(items[0])] + Served(items[1..], calls[1..])
    else [Some(items[|items| - 1])] + Served(items[..|items| - 1], calls[1..])
  }

  lemma ServedOne<T>(before: seq<T>, r: Option<T>, after: seq<T>, calls: seq<bool>)
    requires calls != []
    requires PoppedEnd(calls[0], before, r, after)
    ensures Served(before, calls) == [r] + Served(after, calls[1..])
  {
  }

  lemma ServedNothing<T>(items: seq<T>)
    ensures Served(items, []) == []
  {
  }

  lemma PopLast<T>(before: seq<T>, x: T)
    ensures PoppedBack(before + [x], Some(x), before)
  {
  }

  lemma PopNothing<T>()
    ensures PoppedBack<T>([], None, [])
  {
  }

  function Reversed<T>(s: seq<T>): (r: seq<T>)
    ensures |r| == |s|
    ensures forall i :: 0 <= i < |s| ==> r[i] == s[|s| - 1 - i]
  {
    seq(|s|, i requires 0 <= i < |s| => s[|s| - 1 - i])
  }

  function Filter<T>(s: seq<T>, keep: T -> bool): (r: seq<T>)
  {
    if s == [] then []
    else (if keep(s[0]) then [s[0]] else []) + Filter(s[1..], keep)
  }

  lemma ConcatAssociates<T>(a: seq<T>, b: seq<T>, c: seq<T>)
    ensures a + (b + c) == (a + b) + c
  {
  }

  lemma {:induction false} FilterConcat<T>(a: seq<T>, b: seq<T>, keep: T -> bool)
    ensures Filter(a + b, keep) == Filter(a, keep) + Filter(b, keep)
  {
    if a == [] {
      assert a + b == b;
    } else {
      var head := if keep(a[0]) then [a[0]] else [];
      FilterConcat(a[1..], b, keep);
      assert (a + b)[0] == a[0] && (a + b)[1..] == a[1..] + b;
      assert Filter(a + b, keep) == head + Filter(a[1..] + b, keep);
      ConcatAssociates(head, Filter(a[1..], keep), Filter(b, keep));
    }
  }

  /** Filtering keeps exactly the elements that pass. */
  lemma {:induction false} FilterMembers<T>(s: seq<T>, keep: T -> bool)
    ensures forall x :: x in Filter(s, keep) <==> x in s && keep(x)
    ensures |Filter(s, keep)| <= |s|
  {
    if s != [] {
      FilterMembers(s[1..], keep);
      assert s == [s[0]] + s[1..];
    }
  }

  lemma {:induction false} FilterNone<T>(s: seq<T>, keep: T -> bool)
    requires forall x :: x in s ==> !keep(x)
    ensures Filter(s, keep) == []
  {
    if s != [] {
      assert s[0] in s;
      FilterNone(s[1..], keep);
    }
  }

  lemma {:induction false} FilterAll<T>(s: seq<T>, keep: T -> bool)
    requires forall x :: x in s ==> keep(x)
    ensures Filter(s, keep) == s
  {
    if s != [] {
      assert s[0] in s;
      FilterAll(s[1..], keep);
    }
  }

  /** Filtering depends only on which elements of the sequence pass. */
  lemma {:induction false} FilterAgree<T>(s: seq<T>, p: T -> bool, q: T -> bool)
    requires forall x :: x in s ==> p(x) == q(x)
    ensures Filter(s, p) == Filter(s, q)
  {
    if s != [] {
      assert s[0] in s;
      FilterAgree(s[1..], p, q);
    }
  }

  /** Filtering twice is filtering once for both conditions. */
  lemma {:induction false} FilterFilter<T>(s: seq<T>, p: T -> bool, q: T -> bool, both: T -> bool)
    requires forall x :: x in s ==> both(x) == (p(x) && q(x))
    ensures Filter(Filter(s, p), q) == Filter(s, both)
  {
    if s != [] {
      assert s[0] in s;
      FilterFilter(s[1..], p, q, both);
      FilterConcat(if p(s[0]) then [s[0]] else [], Filter(s[1..], p), q);
    }
  }

  /** One end of a range. */
  datatype Bound<K> = Included(key: K) | Excluded(key: K) | Unbounded
}

module Comparator {

  /** The strict total order that a user comparator promises; `Equal` is identity. */
  ghost predicate StrictTotalOrder<K(!new)>(less: (K, K) -> bool) {
    && (forall a :: !less(a, a))
    && (forall a, b :: less(a, b) || less(b, a) || a == b)
    && (forall a, b, c :: less(a, b) && less(b, c) ==> less(a, c))
  }

  /** The place of `k` among the finitely many keys `all` of a run. */
  ghost function Rank<K(!new)>(less: (K, K) -> bool, all: set<K>, k: K): nat {
    |set x | x in all && less(x, k)|
  }

  /** Places are ordered exactly as the comparator orders the keys, and distinct
      keys have distinct places. */
  lemma RankEmbeds<K(!new)>(less: (K, K) -> bool, all: set<K>, a: K, b: K)
    requires StrictTotalOrder(less)
    requires a in all && b in all
    ensures less(a, b) <==> Rank(less, all, a) < Rank(less, all, b)
    ensures a == b <==> Rank(less, all, a) == Rank(less, all, b)
  {
    if less(a, b) {
      RankGrows(less, all, a, b);
    } else if less(b, a) {
      RankGrows(less, all, b, a);
    }
  }

  lemma RankGrows<K(!new)>(less: (K, K) -> bool, all: set<K>, a: K, b: K)
    requires StrictTotalOrder(less)
    requires a in all && b in all && less(a, b)
    ensures Rank(less, all, a) < Rank(less, all, b)
  {
    var below := set x | x in all && less(x, a);
    var upto := set x | x in all && less(x, b);
    assert below + {a} <= upto;
    SubsetSize(below + {a}, upto);
  }

  lemma {:induction false} SubsetSize<K>(small: set<K>, large: set<K>)
    requires small <= large
    ensures |small| <= |large|
  {
    if small != {} {
      var x :| x in small;
      SubsetSize(small - {x}, large - {x});
    }
  }
}
