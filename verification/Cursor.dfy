/**
 The contract of a coherent source: `next` and `next_back` shrink one window of
 remaining items from its two ends, and a reposition installs a fresh window.
 Table readers and memtable ranges meet it; a run reader reads its tables through it.
 */
module Cursors {
  import opened Core

  class Cursor<T> {
    var rest: seq<T>

    constructor (items: seq<T>)
      ensures rest == items
    {
      rest := items;
    }

    method Next() returns (r: Option<T>)
      modifies this
      ensures PoppedFront(old(rest), r, rest)
    {
      if rest == [] {
        return None;
      }
      r := Some(rest[0]);
      rest := rest[1..];
    }

    method NextBack() returns (r: Option<T>)
      modifies this
      ensures PoppedBack(old(rest), r, rest)
    {
      if rest == [] {
        return None;
      }
      r := Some(rest[|rest| - 1]);
      rest := rest[..|rest| - 1];
    }

    method Reseek(items: seq<T>)
      modifies this
      ensures rest == items
    {
      rest := items;
    }
  }
}
