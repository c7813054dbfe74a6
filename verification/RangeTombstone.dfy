/** src/range_tombstone.rs: half-open range deletions and their order. */
module RangeTombstones {
  import opened Core

  datatype RangeTombstone = RangeTombstone(start: Key, end: Key, seqno: SeqNo) {

    predicate ContainsKey(key: Key) { start <= key < end }

    predicate VisibleAt(readSeqno: SeqNo) { seqno < readSeqno }

    predicate ShouldSuppress(key: Key, kvSeqno: SeqNo, readSeqno: SeqNo) {
      VisibleAt(readSeqno) && ContainsKey(key) && kvSeqno < seqno
    }

    predicate FullyCovers(min: Key, max: Key) { start <= min && max < end }
  }

  /** A tombstone with the snapshot cutoff of the source it came from. */
  datatype Sourced = Sourced(rt: RangeTombstone, cutoff: SeqNo)

  /** The one-line meaning of suppression that every faster form is compared to. */
  predicate Suppressed(rts: seq<Sourced>, key: Key, seqno: SeqNo) {
    exists s | s in rts :: s.rt.ShouldSuppress(key, seqno, s.cutoff)
  }

  predicate EntrySuppressed(rts: seq<Sourced>, e: Entry) {
    Suppressed(rts, e.key, e.seqno)
  }

  /** Whatever suppresses a version suppresses every older version of the key. */
  lemma SuppressionIsDownwardClosed(rts: seq<Sourced>, newer: Entry, older: Entry)
    requires newer.key == older.key && older.seqno <= newer.seqno
    requires EntrySuppressed(rts, newer)
    ensures EntrySuppressed(rts, older)
  {
    var s :| s in rts && s.rt.ShouldSuppress(newer.key, newer.seqno, s.cutoff);
    assert s.rt.ShouldSuppress(older.key, older.seqno, s.cutoff);
  }
}
