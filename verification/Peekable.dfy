/** src/double_ended_peekable.rs: one lookahead slot at each end of a stream. */
module Peekable {
  import opened Core
  import opened EntryStreams

  datatype MaybePeeked<T> = Unpeeked | Peeked(item: Option<T>) {

    /** The item a slot holds back from the stream, if any. */
    function Held(): seq<T> {
      if this.Peeked? && item.Some? then [item.value] else []
    }

    function IntoPeekedValue(): Option<T> {
      if this.Peeked? then item else None
    }
  }

  class DoubleEndedPeekable {
    const iter: EntryStream
    var front: MaybePeeked<Entry>
    var back: MaybePeeked<Entry>
    ghost const Repr: set<object>

    /** A slot that remembers the end of the stream can only do so once the stream
        is exhausted. */
    ghost predicate Valid()
      reads this, Repr
    {
      && Repr == {this} + iter.Repr() && this !in iter.Repr() && iter.Valid()
      && (front == Peeked(None) ==> iter.Contents() == [])
      && (back == Peeked(None) ==> iter.Contents() == [])
    }

    /** The items still to be handed out, in order. */
    ghost function Contents(): seq<Entry>
      requires Valid()
      reads this, Repr
    {
      front.Held() + iter.Contents() + back.Held()
    }

    /** A deque whatever the order of the calls. */
    predicate Steady() {
      iter.Steady()
    }

    /** Pulling in this direction is right. */
    ghost predicate Fit(forward: bool)
      requires Valid()
      reads this, Repr
    {
      iter.Fit(forward)
    }

    /** And it has not been done yet. */
    ghost predicate Untouched(forward: bool)
      requires Valid()
      reads this, Repr
    {
      iter.Untouched(forward)
    }

    constructor (stream: EntryStream)
      requires stream.Valid()
      ensures Valid() && iter == stream && Repr == {this} + stream.Repr()
      ensures Contents() == stream.Contents()
    {
      iter := stream;
      front, back := Unpeeked, Unpeeked;
      Repr := {this} + stream.Repr();
    }

    method Next() returns (r: Option<Entry>)
      requires Valid() && Fit(true)
      modifies Repr
      ensures Valid() && Fit(true) && (old(Untouched(false)) ==> Untouched(false))
      ensures PoppedFront(old(Contents()), r, Contents())
      ensures front == Unpeeked
    {
      hide EntryStream.Repr, EntryStream.Valid, EntryStream.Contents, EntryStream.Fit, EntryStream.Untouched;
      var taken := front;
      front := Unpeeked;
      if taken.Peeked? && taken.item.Some? {
        r := taken.item;
      } else {
        r := None;
        if taken.Unpeeked? {
          r := iter.PullEntry(true);
        }
        if r.None? {
          r := back.IntoPeekedValue();
          back := Unpeeked;
        }
      }
    }

    method NextBack() returns (r: Option<Entry>)
      requires Valid() && Fit(false)
      modifies Repr
      ensures Valid() && Fit(false) && (old(Untouched(true)) ==> Untouched(true))
      ensures PoppedBack(old(Contents()), r, Contents())
    {
      hide EntryStream.Repr, EntryStream.Valid, EntryStream.Contents, EntryStream.Fit, EntryStream.Untouched;
      ghost var before := Contents();
      var taken := back;
      back := Unpeeked;
      if taken.Peeked? && taken.item.Some? {
        r := taken.item;
        assert Contents() == before[..|before| - 1];
      } else {
        r := None;
        if taken.Unpeeked? {
          r := iter.PullEntry(false);
        }
        if r.None? {
          r := front.IntoPeekedValue();
          front := Unpeeked;
        } else {
          assert Contents() == before[..|before| - 1];
        }
      }
    }

    /** Looking at the first item leaves the remaining items as they are. */
    method Peek() returns (r: Option<Entry>)
      requires Valid() && Fit(true)
      modifies Repr
      ensures Valid() && Fit(true) && (old(Untouched(false)) ==> Untouched(false))
      ensures Contents() == old(Contents())
      ensures r == if Contents() == [] then None else Some(Contents()[0])
    {
      hide EntryStream.Repr, EntryStream.Valid, EntryStream.Contents, EntryStream.Fit, EntryStream.Untouched;
      ghost var before := Contents();
      if front.Unpeeked? {
        var item := iter.PullEntry(true);
        front := Peeked(item);
      }
      assert Contents() == before;
      r := if front.item.Some? then front.item else back.IntoPeekedValue();
    }

    /** Looking at the last item leaves the remaining items as they are. */
    method PeekBack() returns (r: Option<Entry>)
      requires Valid() && Fit(false)
      modifies Repr
      ensures Valid() && Fit(false) && (old(Untouched(true)) ==> Untouched(true))
      ensures Contents() == old(Contents())
      ensures r == if Contents() == [] then None else Some(Contents()[|Contents()| - 1])
    {
      hide EntryStream.Repr, EntryStream.Valid, EntryStream.Contents, EntryStream.Fit, EntryStream.Untouched;
      ghost var before := Contents();
      if back.Unpeeked? {
        var item := iter.PullEntry(false);
        back := Peeked(item);
      }
      assert Contents() == before;
      r := if back.item.Some? then back.item else front.IntoPeekedValue();
    }

    /** Consumes the first item exactly when it satisfies `accept`. */
    method NextIf(accept: Entry -> bool) returns (r: Option<Entry>)
      requires Valid() && Fit(true)
      modifies Repr
      ensures Valid() && Fit(true) && (old(Untouched(false)) ==> Untouched(false))
      ensures if old(Contents()) != [] && accept(old(Contents())[0])
              then PoppedFront(old(Contents()), r, Contents())
              else r == None && Contents() == old(Contents())
    {
      hide EntryStream.Repr, EntryStream.Valid, EntryStream.Contents, EntryStream.Fit, EntryStream.Untouched;
      ghost var before := Contents();
      var item := Next();
      if item.Some? && accept(item.value) {
        return item;
      }
      assert front.Unpeeked?;
      front := Peeked(item);
      assert Contents() == before;
      r := None;
    }

    /** Drops both lookahead slots and repositions the stream. */
    method Reseek(positioned: seq<seq<Entry>>)
      requires Valid() && iter.CanReseek(positioned)
      modifies Repr
      ensures Valid() && Untouched(true) && Untouched(false)
      ensures Contents() == iter.Positioned(positioned)
    {
      hide EntryStream.Repr, EntryStream.Valid, EntryStream.Contents, EntryStream.Fit, EntryStream.Untouched;
      hide EntryStream.CanReseek, EntryStream.Positioned;
      front, back := Unpeeked, Unpeeked;
      iter.Reseek(positioned);
    }
  }
}
