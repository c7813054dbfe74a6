/**
 src/active_tombstone_set.rs: the tombstones a sweep is currently inside.

 The forward set expires a tombstone when the scan reaches its `end`; the reverse
 set when the scan passes below its `start`. Both keep the boundary that expires
 soonest at the tail of a sorted vector and count the active seqnos beside it, so
 one class with a direction stands for the two.
 */
module ActiveTombstones {
  import opened Core
  import opened RangeTombstones
  import opened Sorting

  datatype Pending = Pending(boundary: Key, id: nat, seqno: SeqNo)

  /** How many pending expiries carry `seqno`. */
  function CountOf(pending: seq<Pending>, seqno: SeqNo): nat {
    if pending == [] then 0
    else (if pending[|pending| - 1].seqno == seqno then 1 else 0) + CountOf(pending[..|pending| - 1], seqno)
  }

  lemma {:induction false} CountOfInsert(pending: seq<Pending>, at: nat, p: Pending, seqno: SeqNo)
    requires at <= |pending|
    ensures CountOf(pending[..at] + [p] + pending[at..], seqno) ==
            CountOf(pending, seqno) + if p.seqno == seqno then 1 else 0
    decreases |pending|
  {
    var whole := pending[..at] + [p] + pending[at..];
    if at == |pending| {
      assert whole == pending + [p];
      assert whole[..|whole| - 1] == pending;
    } else {
      var front := pending[..|pending| - 1];
      CountOfInsert(front, at, p, seqno);
      assert front[..at] == pending[..at];
      assert whole[..|whole| - 1] == front[..at] + [p] + front[at..];
    }
  }

  lemma {:induction false} CountOfPositive(pending: seq<Pending>, seqno: SeqNo)
    ensures CountOf(pending, seqno) > 0 <==> exists p :: p in pending && p.seqno == seqno
  {
    if pending != [] {
      var front, last := pending[..|pending| - 1], pending[|pending| - 1];
      CountOfPositive(front, seqno);
      assert pending == front + [last];
    }
  }

  /** The counters are exactly the multiset of pending seqnos. */
  ghost predicate Counts(counts: map<SeqNo, nat>, pending: seq<Pending>) {
    && (forall s: SeqNo :: s in counts <==> CountOf(pending, s) > 0)
    && (forall s: SeqNo :: s in counts ==> counts[s] == CountOf(pending, s))
  }

  /** The boundaries and seqnos of the active tombstones. */
  ghost function Live(pending: seq<Pending>): set<(Key, SeqNo)> {
    set p | p in pending :: (p.boundary, p.seqno)
  }

  /** What activating a tombstone adds to them. */
  ghost function Marked(forward: bool, rt: RangeTombstone, cutoff: SeqNo): set<(Key, SeqNo)> {
    if rt.VisibleAt(cutoff) then {(if forward then rt.end else rt.start, rt.seqno)} else {}
  }

  /** `a` expires no sooner than `b` when the scan runs in this direction. */
  predicate Outlasts(forward: bool, a: Key, b: Key) {
    if forward then a >= b else a <= b
  }

  /** A tombstone with this boundary no longer applies at `key`. */
  predicate Expired(forward: bool, boundary: Key, key: Key) {
    if forward then boundary <= key else key < boundary
  }

  ghost predicate ExpiryOrdered(forward: bool, pending: seq<Pending>) {
    forall i, j :: 0 <= i < j < |pending| ==>
      Outlasts(forward, pending[i].boundary, pending[j].boundary) &&
      (pending[i].boundary == pending[j].boundary ==> pending[i].id < pending[j].id)
  }

  class ActiveSet {
    const forward: bool
    var seqnoCounts: map<SeqNo, nat>
    var pendingExpiry: seq<Pending>
    var nextId: nat

    ghost predicate Valid()
      reads this
    {
      && Counts(seqnoCounts, pendingExpiry)
      && ExpiryOrdered(forward, pendingExpiry)
      && (forall p :: p in pendingExpiry ==> p.id < nextId)
    }

    constructor (forward: bool)
      ensures Valid() && this.forward == forward && pendingExpiry == []
    {
      this.forward := forward;
      seqnoCounts, pendingExpiry, nextId := map[], [], 0;
    }

    method Clear()
      requires Valid()
      modifies this
      ensures Valid() && pendingExpiry == []
    {
      seqnoCounts, pendingExpiry, nextId := map[], [], 0;
    }

    /** Where a tombstone with this boundary and the newest id belongs. */
    method InsertionPoint(boundary: Key) returns (at: nat)
      requires Valid()
      ensures at <= |pendingExpiry|
      ensures forall i :: 0 <= i < at ==> Outlasts(forward, pendingExpiry[i].boundary, boundary)
      ensures forall i :: at <= i < |pendingExpiry| ==> !Outlasts(forward, pendingExpiry[i].boundary, boundary)
    {
      at := PartitionPoint(pendingExpiry, (p: Pending) => Outlasts(forward, p.boundary, boundary));
    }

    method Activate(rt: RangeTombstone, cutoff: SeqNo)
      requires Valid()
      modifies this
      ensures Valid()
      ensures Live(pendingExpiry) == old(Live(pendingExpiry)) + Marked(forward, rt, cutoff)
      ensures !rt.VisibleAt(cutoff) ==> pendingExpiry == old(pendingExpiry)
      ensures rt.VisibleAt(cutoff) ==>
        var p := Pending(if forward then rt.end else rt.start, old(nextId), rt.seqno);
        multiset(pendingExpiry) == multiset(old(pendingExpiry) + [p])
    {
      hide Counts, ExpiryOrdered, Live;
      if !rt.VisibleAt(cutoff) {
        return;
      }
      var boundary := if forward then rt.end else rt.start;
      var at := InsertionPoint(boundary);
      var p := Pending(boundary, nextId, rt.seqno);
      ghost var before, counts := pendingExpiry, seqnoCounts;
      nextId := nextId + 1;
      seqnoCounts := seqnoCounts[rt.seqno := (if rt.seqno in seqnoCounts then seqnoCounts[rt.seqno] else 0) + 1];
      pendingExpiry := pendingExpiry[..at] + [p] + pendingExpiry[at..];
      CountsInsert(counts, before, at, p);
      InsertOrdered(forward, before, at, p);
      LiveInsert(before, at, p);
      LiveMarked(forward, rt, cutoff, p);
      assert before == before[..at] + before[at..];
    }

    method RetireLast()
      requires Valid() && pendingExpiry != []
      modifies this`seqnoCounts, this`pendingExpiry
      ensures Valid() && pendingExpiry == old(pendingExpiry)[..|old(pendingExpiry)| - 1]
    {
      hide Counts;
      var seqno := pendingExpiry[|pendingExpiry| - 1].seqno;
      CountsPop(seqnoCounts, pendingExpiry);
      assert seqno in seqnoCounts;
      pendingExpiry := pendingExpiry[..|pendingExpiry| - 1];
      if seqnoCounts[seqno] == 1 {
        seqnoCounts := seqnoCounts - {seqno};
      } else {
        seqnoCounts := seqnoCounts[seqno := seqnoCounts[seqno] - 1];
      }
    }

    /** Retires every tombstone the scan has left behind. The counter of each is
        there to be decremented. */
    method ExpireUntil(key: Key)
      requires Valid()
      modifies this
      ensures Valid()
      ensures Live(pendingExpiry) == set q | q in old(Live(pendingExpiry)) && !Expired(forward, q.0, key)
    {
      hide Counts, Live, ExpiryOrdered;
      ghost var all := pendingExpiry;
      while pendingExpiry != [] && Expired(forward, pendingExpiry[|pendingExpiry| - 1].boundary, key)
        invariant Valid()
        invariant pendingExpiry <= all
        invariant forall i :: |pendingExpiry| <= i < |all| ==> Expired(forward, all[i].boundary, key)
        decreases |pendingExpiry|
      {
        RetireLast();
      }
      ExpiredSuffix(forward, all, pendingExpiry, key);
    }

    method MaxActiveSeqno() returns (r: Option<SeqNo>)
      ensures r.None? <==> seqnoCounts == map[]
      ensures r.Some? ==> r.value in seqnoCounts && forall s :: s in seqnoCounts ==> s <= r.value
    {
      r := None;
      var left := seqnoCounts.Keys;
      while left != {}
        invariant left <= seqnoCounts.Keys
        invariant r.None? <==> left == seqnoCounts.Keys
        invariant r.Some? ==> r.value in seqnoCounts && forall s :: s in seqnoCounts && s !in left ==> s <= r.value
      {
        var s :| s in left;
        left := left - {s};
        if r.None? || r.value < s {
          r := Some(s);
        }
      }
    }

    /** Some active tombstone is newer than the entry. */
    method IsSuppressed(seqno: SeqNo) returns (r: bool)
      requires Valid()
      ensures r <==> exists q :: q in Live(pendingExpiry) && seqno < q.1
    {
      hide Live;
      SuppressedByCount(seqnoCounts, pendingExpiry, seqno);
      var max := MaxActiveSeqno();
      r := max.Some? && seqno < max.value;
    }
  }

  lemma CountsInsert(counts: map<SeqNo, nat>, pending: seq<Pending>, at: nat, p: Pending)
    requires at <= |pending| && Counts(counts, pending)
    ensures Counts(counts[p.seqno := (if p.seqno in counts then counts[p.seqno] else 0) + 1],
                   pending[..at] + [p] + pending[at..])
  {
    forall s: SeqNo {
      CountOfInsert(pending, at, p, s);
    }
  }

  lemma InsertOrdered(forward: bool, pending: seq<Pending>, at: nat, p: Pending)
    requires at <= |pending| && ExpiryOrdered(forward, pending)
    requires forall i :: 0 <= i < at ==> Outlasts(forward, pending[i].boundary, p.boundary)
    requires forall i :: at <= i < |pending| ==> !Outlasts(forward, pending[i].boundary, p.boundary)
    requires forall q :: q in pending ==> q.id < p.id
    ensures ExpiryOrdered(forward, pending[..at] + [p] + pending[at..])
  {
  }

  lemma LiveMarked(forward: bool, rt: RangeTombstone, cutoff: SeqNo, p: Pending)
    requires rt.VisibleAt(cutoff) && p.boundary == (if forward then rt.end else rt.start) && p.seqno == rt.seqno
    ensures Live([p]) == Marked(forward, rt, cutoff)
  {
    assert p in [p];
  }

  lemma LiveInsert(pending: seq<Pending>, at: nat, p: Pending)
    requires at <= |pending|
    ensures Live(pending[..at] + [p] + pending[at..]) == Live(pending) + Live([p])
  {
    var whole := pending[..at] + [p] + pending[at..];
    assert pending == pending[..at] + pending[at..];
    assert forall x :: x in whole <==> x in pending || x == p;
    assert p in whole;
  }

  function Decremented(counts: map<SeqNo, nat>, seqno: SeqNo): map<SeqNo, nat>
    requires seqno in counts && counts[seqno] > 0
  {
    if counts[seqno] == 1 then counts - {seqno} else counts[seqno := counts[seqno] - 1]
  }

  lemma CountsPop(counts: map<SeqNo, nat>, pending: seq<Pending>)
    requires pending != [] && Counts(counts, pending)
    ensures
      var seqno := pending[|pending| - 1].seqno;
      seqno in counts && counts[seqno] > 0 &&
      Counts(Decremented(counts, seqno), pending[..|pending| - 1])
  {
  }

  lemma ExpiredSuffix(forward: bool, all: seq<Pending>, kept: seq<Pending>, key: Key)
    requires kept <= all && ExpiryOrdered(forward, all)
    requires forall i :: |kept| <= i < |all| ==> Expired(forward, all[i].boundary, key)
    requires kept == [] || !Expired(forward, kept[|kept| - 1].boundary, key)
    ensures Live(kept) == set q | q in Live(all) && !Expired(forward, q.0, key)
  {
    forall p | p in all
      ensures p in kept <==> !Expired(forward, p.boundary, key)
    {
      var i :| 0 <= i < |all| && all[i] == p;
      if i < |kept| {
        assert kept[i] == p;
        var last := |kept| - 1;
        assert i < last ==> Outlasts(forward, all[i].boundary, all[last].boundary);
      }
    }
  }

  lemma SuppressedByCount(counts: map<SeqNo, nat>, pending: seq<Pending>, seqno: SeqNo)
    requires Counts(counts, pending)
    ensures (exists s :: s in counts.Keys && seqno < s) <==> exists q :: q in Live(pending) && seqno < q.1
  {
    forall s: SeqNo {
      CountOfPositive(pending, s);
    }
    if s :| s in counts.Keys && seqno < s {
      var p :| p in pending && p.seqno == s;
      assert (p.boundary, p.seqno) in Live(pending);
    }
    if q :| q in Live(pending) && seqno < q.1 {
      assert q.1 in counts.Keys;
    }
  }
}
