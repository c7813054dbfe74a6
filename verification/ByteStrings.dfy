/**
 Byte-string keys under the default comparator: prefix ranges (src/range.rs) and the
 exclusive upper bound of a key (src/range_tombstone.rs).
 */
module ByteStrings {
  import opened Comparator
  import opened Core

  type Bytes = seq<byte>

  const MAX_KEY_LENGTH := 65535

  predicate Below(x: byte, y: byte) {
    x < y
  }

  lemma BelowIsTotal(x: byte, y: byte)
    ensures Below(x, y) || Below(y, x) || x == y
    ensures !(Below(x, y) && Below(y, x)) && !Below(x, x)
  {
  }

  lemma BelowIsTransitive(x: byte, y: byte, z: byte)
    requires Below(x, y) && Below(y, z)
    ensures Below(x, z)
  {
  }

  lemma NextByte(x: byte, y: byte)
    requires x < 255
    ensures Below(y, x + 1) <==> Below(y, x) || y == x
    ensures x + 1 != x
  {
  }

  lemma NothingBelowZero(y: byte)
    ensures !Below(y, 0)
  {
  }

  lemma NothingAbove(y: byte)
    ensures !Below(255, y)
  {
  }

  predicate Less(a: Bytes, b: Bytes) {
    b != [] && (a == [] || Below(a[0], b[0]) || (a[0] == b[0] && Less(a[1..], b[1..])))
  }

  lemma {:induction false} LessIsTotal(a: Bytes, b: Bytes)
    ensures !Less(a, a)
    ensures Less(a, b) || Less(b, a) || a == b
    ensures !(Less(a, b) && Less(b, a))
  {
    hide Below;
    if a != [] && b != [] {
      BelowIsTotal(a[0], b[0]);
      LessIsTotal(a[1..], b[1..]);
      assert a == [a[0]] + a[1..] && b == [b[0]] + b[1..];
    } else if a != [] {
      BelowIsTotal(a[0], a[0]);
      LessIsTotal(a[1..], []);
    }
  }

  lemma {:induction false} LessIsTransitive(a: Bytes, b: Bytes, c: Bytes)
    requires Less(a, b) && Less(b, c)
    ensures Less(a, c)
  {
    hide Below;
    if a != [] {
      if Below(a[0], b[0]) && Below(b[0], c[0]) {
        BelowIsTransitive(a[0], b[0], c[0]);
      } else if a[0] == b[0] == c[0] {
        LessIsTransitive(a[1..], b[1..], c[1..]);
      }
    }
  }

  /** The default comparator is one the key ranks stand for. */
  lemma LexicographicIsTotalOrder()
    ensures StrictTotalOrder(Less)
  {
    hide Less;
    forall a, b ensures !Less(a, a) && (Less(a, b) || Less(b, a) || a == b) {
      LessIsTotal(a, b);
    }
    forall a, b, c | Less(a, b) && Less(b, c) ensures Less(a, c) {
      LessIsTransitive(a, b, c);
    }
  }

  // --- the position where a prefix can still grow ---

  ghost predicate AllMax(p: Bytes) {
    forall i :: 0 <= i < |p| ==> p[i] == 255
  }

  ghost predicate LastBelowMax(p: Bytes, i: nat) {
    i < |p| && p[i] < 255 && AllMax(p[i + 1..])
  }

  function Incremented(p: Bytes, i: nat): Bytes
    requires i < |p| && p[i] < 255
  {
    p[..i] + [p[i] + 1]
  }

  lemma {:induction false} AtLeastAllMax(p: Bytes, s: Bytes)
    requires AllMax(p)
    ensures !Less(s, p) <==> p <= s
  {
    hide Below;
    if p != [] && s != [] {
      NothingAbove(s[0]);
      BelowIsTotal(p[0], s[0]);
      AtLeastAllMax(p[1..], s[1..]);
      assert p == [p[0]] + p[1..] && s == [s[0]] + s[1..];
    }
  }

  lemma BumpedHead(p: Bytes, s: Bytes)
    requires LastBelowMax(p, 0) && s != []
    ensures p <= s <==> !Less(s, p) && Less(s, Incremented(p, 0))
  {
    NextByte(p[0], s[0]);
    hide Below;
    var bumped := Incremented(p, 0);
    assert p == [p[0]] + p[1..] && s == [s[0]] + s[1..] && |bumped| == 1 && !Less(s[1..], bumped[1..]);
    BelowIsTotal(p[0], s[0]);
    AtLeastAllMax(p[1..], s[1..]);
  }

  /** Against strings with the same first byte, that byte decides or drops out. */
  lemma SameHead(p: Bytes, q: Bytes, s: Bytes)
    requires p != [] && q != [] && s != [] && p[0] == q[0]
    ensures s[0] == p[0] ==>
      && (p <= s <==> p[1..] <= s[1..])
      && (Less(s, p) <==> Less(s[1..], p[1..])) && (Less(s, q) <==> Less(s[1..], q[1..]))
    ensures s[0] != p[0] ==> !(p <= s) && (Less(s, p) <==> Less(s, q))
  {
    hide Below, Less;
    PrefixHead(p, s);
    LessHead(s, p);
    LessHead(s, q);
  }

  lemma PrefixHead(p: Bytes, s: Bytes)
    requires p != [] && s != []
    ensures p <= s <==> p[0] == s[0] && p[1..] <= s[1..]
  {
    assert p == [p[0]] + p[1..] && s == [s[0]] + s[1..];
  }

  lemma LessHead(s: Bytes, p: Bytes)
    requires p != [] && s != []
    ensures s[0] == p[0] ==> (Less(s, p) <==> Less(s[1..], p[1..]))
    ensures s[0] != p[0] ==> (Less(s, p) <==> Below(s[0], p[0]))
  {
    BelowIsTotal(s[0], p[0]);
    hide Below;
  }

  lemma {:induction false} PrefixBetween(p: Bytes, i: nat, s: Bytes)
    requires LastBelowMax(p, i)
    ensures p <= s <==> !Less(s, p) && Less(s, Incremented(p, i))
  {
    hide Below;
    if s != [] {
      assert p == [p[0]] + p[1..] && s == [s[0]] + s[1..];
      if i == 0 {
        BumpedHead(p, s);
      } else {
        hide Less;
        assert p[1..][i..] == p[i + 1..];
        PrefixBetween(p[1..], i - 1, s[1..]);
        var bumped := Incremented(p, i);
        assert bumped == [p[0]] + Incremented(p[1..], i - 1);
        SameHead(p, bumped, s);
      }
    }
  }

  // --- prefix ranges ---

  predicate Within(lo: Bound<Bytes>, hi: Bound<Bytes>, s: Bytes) {
    && (lo.Included? ==> !Less(s, lo.key)) && (lo.Excluded? ==> Less(lo.key, s))
    && (hi.Included? ==> !Less(hi.key, s)) && (hi.Excluded? ==> Less(s, hi.key))
  }

  ghost predicate UpperOf(p: Bytes, hi: Bound<Bytes>) {
    if AllMax(p) then hi == Unbounded else exists i :: LastBelowMax(p, i) && hi == Excluded(Incremented(p, i))
  }

  /** Looks from the end for a byte to increment. */
  method PrefixUpperRange(prefix: Bytes) returns (hi: Bound<Bytes>)
    requires prefix != []
    ensures UpperOf(prefix, hi)
  {
    var end := new byte[|prefix|](i requires 0 <= i < |prefix| => prefix[i]);
    var idx := |prefix|;
    while idx > 0
      invariant 0 <= idx <= |prefix| && end[..] == prefix
      invariant AllMax(prefix[idx..])
    {
      idx := idx - 1;
      if end[idx] < 255 {
        end[idx] := end[idx] + 1;
        assert end[..idx + 1] == Incremented(prefix, idx);
        assert LastBelowMax(prefix, idx);
        return Excluded(end[..idx + 1]);
      }
    }
    return Unbounded;
  }

  /** The range of a prefix holds exactly the strings that start with it. */
  method PrefixToRange(prefix: Bytes) returns (lo: Bound<Bytes>, hi: Bound<Bytes>)
    ensures forall s :: Within(lo, hi, s) <==> prefix <= s
    ensures hi == Unbounded <==> AllMax(prefix)
  {
    if prefix == [] {
      return Unbounded, Unbounded;
    }
    hi := PrefixUpperRange(prefix);
    lo := Included(prefix);
    forall s ensures Within(lo, hi, s) <==> prefix <= s {
      RangeIsPrefix(prefix, hi, s);
    }
  }

  lemma RangeIsPrefix(p: Bytes, hi: Bound<Bytes>, s: Bytes)
    requires UpperOf(p, hi)
    ensures Within(Included(p), hi, s) <==> p <= s
    ensures hi == Unbounded <==> AllMax(p)
  {
    hide Less, Incremented;
    if AllMax(p) {
      AtLeastAllMax(p, s);
    } else {
      var i: nat :| LastBelowMax(p, i) && hi == Excluded(Incremented(p, i));
      PrefixBetween(p, i, s);
    }
  }

  // --- the exclusive upper bound ---

  lemma {:induction false} AppendZeroIsNext(k: Bytes, s: Bytes)
    ensures Less(k, s) <==> !Less(s, k + [0])
  {
    hide Below;
    if k == [] {
      if s != [] {
        NothingBelowZero(s[0]);
        assert !Less(s[1..], []);
      }
    } else if s != [] {
      BelowIsTotal(k[0], s[0]);
      AppendZeroIsNext(k[1..], s[1..]);
      assert (k + [0])[1..] == k[1..] + [0];
    }
  }

  lemma IncrementedIsNext(k: Bytes, i: nat, s: Bytes)
    requires LastBelowMax(k, i) && |s| <= |k|
    ensures Less(k, s) <==> !Less(s, Incremented(k, i))
  {
    hide Less, Incremented;
    PrefixBetween(k, i, s);
    LessIsTotal(k, s);
    PrefixBetween(k, i, k);
    if k <= s {
      assert s == k;
    }
    if Less(s, k) {
      LessIsTransitive(s, k, Incremented(k, i));
    }
  }

  lemma AllMaxIsMaximal(k: Bytes, s: Bytes)
    requires AllMax(k) && |s| <= |k|
    ensures !Less(k, s)
  {
    hide Less;
    AtLeastAllMax(k, s);
    LessIsTotal(k, s);
    if k <= s {
      assert s == k;
    }
  }

  /** The least key above `key` among those of at most `limit` bytes. */
  ghost predicate LeastAbove(key: Bytes, r: Option<Bytes>, limit: nat) {
    && (r.Some? ==> |r.value| <= limit && Less(key, r.value))
    && (forall s :: |s| <= limit && Less(key, s) ==> r.Some? && !Less(s, r.value))
  }

  method UpperBoundExclusive(key: Bytes) returns (r: Option<Bytes>)
    ensures LeastAbove(key, r, if |key| < MAX_KEY_LENGTH then MAX_KEY_LENGTH else |key|)
    ensures r.None? <==> |key| >= MAX_KEY_LENGTH && AllMax(key)
  {
    hide Less;
    if |key| < MAX_KEY_LENGTH {
      r := Some(key + [0]);
      AppendZeroIsLeast(key);
      return;
    }
    var result := new byte[|key|](i requires 0 <= i < |key| => key[i]);
    var idx := |key|;
    while idx > 0
      invariant 0 <= idx <= |key| && result[..] == key
      invariant AllMax(key[idx..])
    {
      idx := idx - 1;
      if result[idx] < 255 {
        result[idx] := result[idx] + 1;
        assert result[..idx + 1] == Incremented(key, idx);
        IncrementedIsLeast(key, idx);
        return Some(result[..idx + 1]);
      }
    }
    MaximalHasNone(key);
    return None;
  }

  lemma AppendZeroIsLeast(key: Bytes)
    requires |key| < MAX_KEY_LENGTH
    ensures LeastAbove(key, Some(key + [0]), MAX_KEY_LENGTH)
  {
    hide Less;
    AppendZeroIsNext(key, key + [0]);
    LessIsTotal(key + [0], key + [0]);
    forall s | Less(key, s) ensures !Less(s, key + [0]) {
      AppendZeroIsNext(key, s);
    }
  }

  lemma IncrementedIsLeast(key: Bytes, i: nat)
    requires LastBelowMax(key, i)
    ensures LeastAbove(key, Some(Incremented(key, i)), |key|)
  {
    hide Less;
    var next := Incremented(key, i);
    IncrementedIsNext(key, i, next);
    LessIsTotal(next, next);
    forall s | |s| <= |key| && Less(key, s) ensures !Less(s, next) {
      IncrementedIsNext(key, i, s);
    }
  }

  lemma MaximalHasNone(key: Bytes)
    requires AllMax(key)
    ensures LeastAbove(key, None, |key|)
  {
    hide Less;
    forall s | |s| <= |key| ensures !Less(key, s) {
      AllMaxIsMaximal(key, s);
    }
  }
}
