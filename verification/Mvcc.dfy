/** src/mvcc_stream.rs: collapsing the versions of each key, from both ends. */
module Mvcc {
  import opened Core
  import opened EntryStreams
  import opened Peekable
  import opened RangeTombstones

  /** A merge operator; `None` is its error. Operands come oldest first. */
  type MergeOp = (Key, Option<UserValue>, seq<UserValue>) -> Option<UserValue>

  datatype Base = NoBase | Plain(value: UserValue) | Pointer

  /** What a newest-first scan of the versions of a key finds: operands, newest
      first, down to the entry that ends them. */
  datatype Scan = Scan(operands: seq<UserValue>, base: Base)

  function ScanVersions(es: seq<Entry>, rts: seq<Sourced>): Scan {
    if es == [] || EntrySuppressed(rts, es[0]) then Scan([], NoBase)
    else match es[0].kind
      case MergeOperand =>
        var tail := ScanVersions(es[1..], rts);
        Scan([es[0].value] + tail.operands, tail.base)
      case Value => Scan([], Plain(es[0].value))
      case Indirection => Scan([], Pointer)
      case Tombstone | WeakTombstone => Scan([], NoBase)
  }

  /** `found` extends by what is left of a scan to `whole`. */
  ghost predicate Continues(found: seq<UserValue>, rest: seq<Entry>, rts: seq<Sourced>, whole: Scan) {
    var tail := ScanVersions(rest, rts);
    whole == Scan(found + tail.operands, tail.base)
  }

  lemma ScanStep(found: seq<UserValue>, rest: seq<Entry>, rts: seq<Sourced>, whole: Scan)
    requires Continues(found, rest, rts, whole)
    ensures rest == [] || EntrySuppressed(rts, rest[0]) || rest[0].kind.IsTombstone() ==> whole == Scan(found, NoBase)
    ensures rest != [] && !EntrySuppressed(rts, rest[0]) ==>
              && (rest[0].kind.Value? ==> whole == Scan(found, Plain(rest[0].value)))
              && (rest[0].kind.Indirection? ==> whole == Scan(found, Pointer))
              && (rest[0].kind.MergeOperand? ==> Continues(found + [rest[0].value], rest[1..], rts, whole))
  {
    hide EntrySuppressed;
    assert found + [] == found;
  }

  /** Folds the operands of a scan, oldest first, onto its base. A blob pointer
      is no base: the newest entry is then handed out as it is. */
  function ResolveMerge(head: Entry, scan: Scan, op: MergeOp): Item {
    if scan.base.Pointer? then Row(head)
    else
      var base := if scan.base.Plain? then Some(scan.base.value) else None;
      var merged := op(head.key, base, Reversed(scan.operands));
      if merged.None? then MergeFailed
      else Row(Entry(head.key, head.seqno, Value, merged.value))
  }

  function ResolveGroup(group: seq<Entry>, op: Option<MergeOp>, rts: seq<Sourced>): Item
    requires group != []
  {
    if op.Some? && group[0].kind.MergeOperand? && !EntrySuppressed(rts, group[0])
    then ResolveMerge(group[0], ScanVersions(group, rts), op.value)
    else Row(group[0])
  }

  /** How many leading entries belong to `key`. */
  function KeyRun(s: seq<Entry>, key: Key): (n: nat)
    ensures n <= |s|
    ensures forall i :: 0 <= i < n ==> s[i].key == key
    ensures n < |s| ==> s[n].key != key
  {
    if s == [] || s[0].key != key then 0 else 1 + KeyRun(s[1..], key)
  }

  /** One item per maximal run of entries with the same key. */
  function Collapse(s: seq<Entry>, op: Option<MergeOp>, rts: seq<Sourced>): seq<Item> {
    if s == [] then []
    else
      var n := KeyRun(s, s[0].key);
      [ResolveGroup(s[..n], op, rts)] + Collapse(s[n..], op, rts)
  }

  lemma KeyRunIs(s: seq<Entry>, key: Key, n: nat)
    requires n <= |s|
    requires forall i :: 0 <= i < n ==> s[i].key == key
    requires n < |s| ==> s[n].key != key
    ensures KeyRun(s, key) == n
  {
  }

  lemma CollapseFirst(s: seq<Entry>, n: nat, op: Option<MergeOp>, rts: seq<Sourced>)
    requires 0 < n <= |s|
    requires forall i :: 0 <= i < n ==> s[i].key == s[0].key
    requires n < |s| ==> s[n].key != s[0].key
    ensures Collapse(s, op, rts) == [ResolveGroup(s[..n], op, rts)] + Collapse(s[n..], op, rts)
  {
    KeyRunIs(s, s[0].key, n);
  }

  /** Runs do not cross a change of key, so collapsing distributes over it. */
  lemma {:induction false} CollapseConcat(a: seq<Entry>, b: seq<Entry>, op: Option<MergeOp>, rts: seq<Sourced>)
    requires a != [] && b != [] ==> a[|a| - 1].key != b[0].key
    ensures Collapse(a + b, op, rts) == Collapse(a, op, rts) + Collapse(b, op, rts)
    decreases |a|
  {
    hide ResolveGroup, Collapse, KeyRun;
    if a == [] {
      assert a + b == b;
      CollapseNothing(op, rts);
      assert [] + Collapse(b, op, rts) == Collapse(b, op, rts);
    } else {
      var n := KeyRun(a, a[0].key);
      assert n > 0;
      var group, rest, c := a[..n], a[n..], a + b;
      assert c[..n] == group && c[n..] == rest + b;
      assert rest != [] ==> rest[|rest| - 1] == a[|a| - 1];
      CollapseFirst(a, n, op, rts);
      CollapseFirst(c, n, op, rts);
      CollapseConcat(rest, b, op, rts);
      ConcatAssociates([ResolveGroup(group, op, rts)], Collapse(rest, op, rts), Collapse(b, op, rts));
    }
  }

  /** The last run of a sequence resolves on its own, last. */
  lemma CollapseLast(s: seq<Entry>, k: nat, op: Option<MergeOp>, rts: seq<Sourced>)
    requires k < |s|
    requires forall i :: k <= i < |s| ==> s[i].key == s[|s| - 1].key
    requires k > 0 ==> s[k - 1].key != s[k].key
    ensures PoppedBack(Collapse(s, op, rts), Some(ResolveGroup(s[k..], op, rts)), Collapse(s[..k], op, rts))
  {
    hide Collapse, PoppedBack, ResolveGroup;
    var run, before := s[k..], s[..k];
    assert s == before + run && run[..|run|] == run && run[|run|..] == [];
    CollapseConcat(before, run, op, rts);
    CollapseFirst(run, |run|, op, rts);
    CollapseNothing(op, rts);
    var group := ResolveGroup(run, op, rts);
    assert [group] + [] == [group];
    PopLast(Collapse(before, op, rts), group);
  }

  lemma CollapseNothing(op: Option<MergeOp>, rts: seq<Sourced>)
    ensures Collapse([], op, rts) == []
  {
  }

  /** The first run, seen as its head and the `n` entries that share its key. */
  lemma CollapseHead(s: seq<Entry>, n: nat, op: Option<MergeOp>, rts: seq<Sourced>)
    requires s != [] && n == KeyRun(s[1..], s[0].key)
    ensures Collapse(s, op, rts) ==
      [if op.Some? && s[0].kind.MergeOperand? && !EntrySuppressed(rts, s[0]) then
         var scan := ScanVersions(s[1..][..n], rts);
         ResolveMerge(s[0], Scan([s[0].value] + scan.operands, scan.base), op.value)
       else Row(s[0])] + Collapse(s[1..][n..], op, rts)
  {
    hide ResolveMerge, EntrySuppressed, Collapse;
    var group := s[..n + 1];
    assert group[1..] == s[1..][..n] && s[1..][n..] == s[n + 1..];
    CollapseFirst(s, n + 1, op, rts);
  }

  /** `s[k..]` lies within the last run of `s`, and `buf` holds it oldest first
      whenever entries are buffered at all. */
  ghost predicate Pulled(s: seq<Entry>, k: nat, buffered: bool, buf: seq<Entry>) {
    && k <= |s|
    && (forall i :: k <= i < |s| ==> s[i].key == s[|s| - 1].key)
    && (buffered ==> buf == Reversed(s[k..]))
  }

  lemma PullNone(s: seq<Entry>, buffered: bool)
    ensures Pulled(s, |s|, buffered, [])
  {
  }

  lemma PullUnbuffered(s: seq<Entry>, k: nat, buf: seq<Entry>, other: seq<Entry>)
    requires Pulled(s, k, false, buf)
    ensures Pulled(s, k, false, other)
  {
  }

  lemma PullOne(s: seq<Entry>, k: nat, buffered: bool, buf: seq<Entry>)
    requires Pulled(s, k, buffered, buf) && 0 < k
    requires k < |s| ==> s[k - 1].key == s[k].key
    ensures Pulled(s, k - 1, buffered, buf + [s[k - 1]])
  {
    assert Reversed(s[k..]) + [s[k - 1]] == Reversed(s[k - 1..]);
  }

  class MvccStream {
    const inner: DoubleEndedPeekable
    const mergeOperator: Option<MergeOp>
    const rangeTombstones: seq<Sourced>
    var keyEntriesBuf: seq<Entry>
    ghost const Repr: set<object>

    ghost predicate Valid()
      reads this, Repr
    {
      && this in Repr && inner in Repr
      && Repr == {this} + inner.Repr
      && this !in inner.Repr
      && inner.Valid()
    }

    /** The items still to be handed out: the remaining entries, collapsed. */
    ghost function Contents(): seq<Item>
      requires Valid()
      reads this, Repr
    {
      Collapse(inner.Contents(), mergeOperator, rangeTombstones)
    }

    /** A deque whatever the order of the calls. */
    predicate Steady() {
      inner.Steady()
    }

    /** Pulling in this direction is right. */
    ghost predicate Fit(forward: bool)
      requires Valid()
      reads this, Repr
    {
      inner.Fit(forward)
    }

    /** And it has not been done yet. */
    ghost predicate Untouched(forward: bool)
      requires Valid()
      reads this, Repr
    {
      inner.Untouched(forward)
    }

    constructor (stream: EntryStream, op: Option<MergeOp>, rts: seq<Sourced>)
      requires stream.Valid()
      ensures Valid() && fresh(Repr - stream.Repr()) && inner.iter == stream
      ensures mergeOperator == op && rangeTombstones == rts
      ensures inner.Contents() == stream.Contents()
    {
      var peekable := new DoubleEndedPeekable(stream);
      inner := peekable;
      mergeOperator, rangeTombstones := op, rts;
      keyEntriesBuf := [];
      Repr := {this} + peekable.Repr;
    }

    /** Skips what is left of the run of `key` at the front. */
    method DrainKeyMin(key: Key)
      requires Valid() && Fit(true)
      modifies inner.Repr
      ensures Valid() && Fit(true) && (old(Untouched(false)) ==> Untouched(false))
      ensures inner.Contents() == old(inner.Contents())[KeyRun(old(inner.Contents()), key)..]
    {
      hide KeyRun, DoubleEndedPeekable.Contents;
      hide DoubleEndedPeekable.Fit, DoubleEndedPeekable.Untouched;
      ghost var s := inner.Contents();
      ghost var n := KeyRun(s, key);
      ghost var i := 0;
      while true
        invariant Valid() && Fit(true) && (old(Untouched(false)) ==> Untouched(false))
        invariant 0 <= i <= n
        invariant inner.Contents() == s[i..]
        decreases n - i
      {
        var next := inner.NextIf((e: Entry) => e.key == key);
        if next.None? {
          return;
        }
        i := i + 1;
      }
    }

    /** Streams the rest of the head's run, collecting operands down to the base. */
    method ResolveMergeForward(head: Entry, op: MergeOp) returns (r: Item)
      requires Valid() && Fit(true)
      modifies inner.Repr
      ensures Valid() && Fit(true) && (old(Untouched(false)) ==> Untouched(false))
      ensures inner.Contents() == old(inner.Contents())[KeyRun(old(inner.Contents()), head.key)..]
      ensures
        var run := old(inner.Contents())[..KeyRun(old(inner.Contents()), head.key)];
        var scan := ScanVersions(run, rangeTombstones);
        r == ResolveMerge(head, Scan([head.value] + scan.operands, scan.base), op)
    {
      hide KeyRun, ScanVersions, ResolveMerge, EntrySuppressed, DoubleEndedPeekable.Contents;
      hide DoubleEndedPeekable.Fit, DoubleEndedPeekable.Untouched;
      ghost var s := inner.Contents();
      ghost var n := KeyRun(s, head.key);
      ghost var scan := ScanVersions(s[..n], rangeTombstones);
      ghost var whole := Scan([head.value] + scan.operands, scan.base);
      ghost var i := 0;
      var operands := [head.value];
      var base := NoBase;
      var foundBase := false;
      while !foundBase
        invariant Valid() && Fit(true) && (old(Untouched(false)) ==> Untouched(false))
        invariant 0 <= i <= n
        invariant inner.Contents() == s[i..]
        invariant if foundBase then Scan(operands, base) == whole
                  else base == NoBase && Continues(operands, s[i..n], rangeTombstones, whole)
        decreases n - i, !foundBase
      {
        hide Continues;
        var next := inner.NextIf((e: Entry) => e.key == head.key);
        ScanStep(operands, s[i..n], rangeTombstones, whole);
        if next.None? {
          assert i == n;
          break;
        }
        var e := next.value;
        assert e == s[i..n][0];
        assert s[i..n][1..] == s[i + 1..n];
        i := i + 1;
        if EntrySuppressed(rangeTombstones, e) {
          foundBase := true;
        } else {
          match e.kind
          case MergeOperand => operands := operands + [e.value];
          case Value => base, foundBase := Plain(e.value), true;
          case Indirection => base, foundBase := Pointer, true;
          case Tombstone | WeakTombstone => foundBase := true;
        }
      }
      if foundBase {
        KeyRunIs(s[i..], head.key, n - i);
        DrainKeyMin(head.key);
        assert s[i..][n - i..] == s[n..];
      }
      r := ResolveMerge(head, Scan(operands, base), op);
    }

    /** Resolves a whole run from its buffered entries, oldest first. */
    method ResolveMergeBuffered(entries: seq<Entry>) returns (r: Item)
      requires entries != []
      ensures
        var group := Reversed(entries);
        r == if mergeOperator.None? then Row(group[0])
             else ResolveMerge(group[0], ScanVersions(group, rangeTombstones), mergeOperator.value)
    {
      hide ScanVersions, ResolveMerge, EntrySuppressed;
      ghost var group := Reversed(entries);
      ghost var whole := ScanVersions(group, rangeTombstones);
      var newest := entries[|entries| - 1];
      if mergeOperator.None? {
        return Row(newest);
      }
      var operands: seq<UserValue>, base, i := [], NoBase, |entries|;
      assert group[0..] == group && operands + whole.operands == whole.operands;
      while i > 0
        invariant 0 <= i <= |entries|
        invariant base == NoBase
        invariant Continues(operands, group[|entries| - i..], rangeTombstones, whole)
      {
        hide Continues;
        ghost var rest := group[|entries| - i..];
        ScanStep(operands, rest, rangeTombstones, whole);
        i := i - 1;
        var e := entries[i];
        assert rest[0] == e && rest[1..] == group[|entries| - i..];
        if EntrySuppressed(rangeTombstones, e) {
          return ResolveMerge(newest, Scan(operands, base), mergeOperator.value);
        }
        match e.kind
        case MergeOperand =>
          operands := operands + [e.value];
        case Value =>
          return ResolveMerge(newest, Scan(operands, Plain(e.value)), mergeOperator.value);
        case Indirection =>
          return ResolveMerge(newest, Scan(operands, Pointer), mergeOperator.value);
        case Tombstone | WeakTombstone =>
          return ResolveMerge(newest, Scan(operands, base), mergeOperator.value);
      }
      ScanStep(operands, group[|entries|..], rangeTombstones, whole);
      r := ResolveMerge(newest, Scan(operands, base), mergeOperator.value);
    }

    method Next() returns (r: Option<Item>)
      requires Valid() && Fit(true)
      modifies Repr
      ensures Valid() && Fit(true) && (old(Untouched(false)) ==> Untouched(false))
      ensures PoppedFront(old(Contents()), r, Contents())
    {
      hide KeyRun, Collapse, ScanVersions, ResolveMerge, EntrySuppressed;
      hide DoubleEndedPeekable.Contents, DoubleEndedPeekable.Valid;
      hide DoubleEndedPeekable.Fit, DoubleEndedPeekable.Untouched;
      ghost var s := inner.Contents();
      var next := inner.Next();
      if next.None? {
        CollapseNothing(mergeOperator, rangeTombstones);
        return None;
      }
      var head := next.value;
      ghost var n := KeyRun(s[1..], head.key);
      CollapseHead(s, n, mergeOperator, rangeTombstones);
      if head.kind.MergeOperand? && mergeOperator.Some? && !EntrySuppressed(rangeTombstones, head) {
        var item := ResolveMergeForward(head, mergeOperator.value);
        return Some(item);
      }
      DrainKeyMin(head.key);
      r := Some(Row(head));
    }

    /** Resolves a run whose newest entry is `tail`; its older entries are in the
        buffer, oldest first, whenever there is a merge operator. */
    method ResolveTail(tail: Entry, ghost group: seq<Entry>) returns (r: Item)
      requires group != [] && group[0] == tail
      requires mergeOperator.Some? ==> keyEntriesBuf + [tail] == Reversed(group)
      modifies this`keyEntriesBuf
      ensures r == ResolveGroup(group, mergeOperator, rangeTombstones)
    {
      hide ScanVersions, ResolveMerge, EntrySuppressed;
      if mergeOperator.Some? && tail.kind.MergeOperand? && !EntrySuppressed(rangeTombstones, tail) {
        keyEntriesBuf := keyEntriesBuf + [tail];
        assert Reversed(keyEntriesBuf) == group;
        r := ResolveMergeBuffered(keyEntriesBuf);
        keyEntriesBuf := [];
      } else {
        r := Row(tail);
      }
    }

    /** Pulls the whole last run; `k` is where it began. */
    method PullRun() returns (newest: Option<Entry>, ghost k: nat)
      requires Valid() && Fit(false)
      modifies Repr
      ensures Valid() && Fit(false) && (old(Untouched(true)) ==> Untouched(true))
      ensures
        var s := old(inner.Contents());
        if s == [] then newest == None && inner.Contents() == []
        else
          && k < |s| && newest == Some(s[k])
          && inner.Contents() == s[..k]
          && (k > 0 ==> s[k - 1].key != s[k].key)
          && Pulled(s, k, mergeOperator.Some?, keyEntriesBuf + [s[k]])
    {
      hide Pulled, DoubleEndedPeekable.Contents, DoubleEndedPeekable.Valid;
      hide DoubleEndedPeekable.Fit, DoubleEndedPeekable.Untouched;
      ghost var s := inner.Contents();
      ghost var buffered := mergeOperator.Some?;
      k := |s|;
      keyEntriesBuf := [];
      assert Pulled(s, k, buffered, keyEntriesBuf) by { PullNone(s, buffered); }
      while true
        invariant Valid() && Fit(false) && (old(Untouched(true)) ==> Untouched(true))
        invariant k <= |s|
        invariant k < |s| ==> 0 < k && s[k - 1].key == s[k].key
        invariant inner.Contents() == s[..k]
        invariant Pulled(s, k, buffered, keyEntriesBuf)
        decreases k
      {
        newest := inner.NextBack();
        if newest.None? {
          return;
        }
        PullOne(s, k, buffered, keyEntriesBuf);
        k := k - 1;
        assert inner.Contents() == s[..k];
        var prev := inner.PeekBack();
        if prev.None? || prev.value.key != newest.value.key {
          return;
        }
        if mergeOperator.Some? {
          keyEntriesBuf := keyEntriesBuf + [newest.value];
        } else {
          PullUnbuffered(s, k, keyEntriesBuf + [s[k]], keyEntriesBuf);
        }
      }
    }

    method NextBack() returns (r: Option<Item>)
      requires Valid() && Fit(false)
      modifies Repr
      ensures Valid() && Fit(false) && (old(Untouched(true)) ==> Untouched(true))
      ensures PoppedBack(old(Contents()), r, Contents())
    {
      hide Collapse, ResolveGroup, PoppedBack, DoubleEndedPeekable.Contents;
      hide DoubleEndedPeekable.Fit, DoubleEndedPeekable.Untouched;
      ghost var s := inner.Contents();
      var newest, k := PullRun();
      if newest.None? {
        CollapseNothing(mergeOperator, rangeTombstones);
        PopNothing<Item>();
        return None;
      }
      CollapseLast(s, k, mergeOperator, rangeTombstones);
      var item := ResolveTail(newest.value, s[k..]);
      r := Some(item);
    }

    lemma SteadyIsFit(forward: bool)
      requires Valid() && Steady()
      ensures Fit(forward)
    {
    }

    method Answer(forward: bool) returns (r: Option<Item>)
      requires Valid() && Fit(forward)
      modifies Repr
      ensures Valid() && Fit(forward)
      ensures PoppedEnd(forward, old(Contents()), r, Contents())
    {
      hide MvccStream.Valid, MvccStream.Contents, MvccStream.Fit, MvccStream.Untouched, MvccStream.Steady;
      hide PoppedFront, PoppedBack;
      if forward {
        r := Next();
      } else {
        r := NextBack();
      }
    }

    /** Over a steady stream every list of calls is answered as by a deque. */
    method Interleave(calls: seq<bool>) returns (out: seq<Option<Item>>)
      requires Valid() && Steady()
      modifies Repr
      ensures Valid() && out == Served(old(Contents()), calls)
    {
      hide MvccStream.Valid, MvccStream.Contents, MvccStream.Fit, MvccStream.Steady;
      hide PoppedFront, PoppedBack, Served;
      ghost var all := Contents();
      var rest := calls;
      out := [];
      while rest != []
        invariant Valid() && out + Served(Contents(), rest) == Served(all, calls)
      {
        ghost var before := Contents();
        SteadyIsFit(rest[0]);
        var r := Answer(rest[0]);
        ServedOne(before, r, Contents(), rest);
        out := out + [r];
        rest := rest[1..];
      }
      ServedNothing(Contents());
    }

    /** A reposition forgets the lookahead and the reverse buffer. */
    method Reseek(positioned: seq<seq<Entry>>)
      requires Valid() && inner.iter.CanReseek(positioned)
      modifies Repr
      ensures Valid() && Untouched(true) && Untouched(false)
      ensures inner.Contents() == inner.iter.Positioned(positioned)
    {
      hide EntryStream.CanReseek, EntryStream.Positioned, DoubleEndedPeekable.Valid, DoubleEndedPeekable.Contents;
      keyEntriesBuf := [];
      inner.Reseek(positioned);
    }
  }
}
