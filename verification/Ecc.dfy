/**
 src/ecc.rs: splitting a block into shards, the XOR parity shard, and recovery by
 trying which shard is damaged until a checksum oracle is satisfied.
 */
module Ecc {
  import opened Arithmetic
  import opened Core
  import opened XorBytes
  import opened Combinations

  type Shard = seq<byte>

  // --- geometry ---

  function CeilDiv(a: nat, b: nat): nat
    requires b > 0
  {
    (a + b - 1) / b
  }

  function ShardBytes(length: nat, dataShards: nat): nat {
    if dataShards == 0 then 0 else CeilDiv(CeilDiv(length, dataShards), 2) * 2
  }

  lemma CeilDivBounds(a: nat, b: nat)
    requires b > 0
    ensures CeilDiv(a, b) * b >= a
    ensures CeilDiv(a, b) > 0 ==> (CeilDiv(a, b) - 1) * b < a
  {
    var q, r := (a + b - 1) / b, (a + b - 1) % b;
    assert a + b - 1 == q * b + r;
    assert (q - 1) * b == q * b - b;
  }

  /** The least even shard size that holds the payload. */
  lemma ShardsCover(length: nat, dataShards: nat)
    requires dataShards > 0
    ensures var sb := ShardBytes(length, dataShards);
            && sb % 2 == 0 && dataShards * sb >= length
            && forall smaller: nat :: smaller % 2 == 0 && smaller < sb ==> dataShards * smaller < length
  {
    hide CeilDiv;
    var raw, sb := CeilDiv(length, dataShards), ShardBytes(length, dataShards);
    CeilDivBounds(length, dataShards);
    CeilDivBounds(raw, 2);
    MulMono(raw, sb, dataShards);
    forall smaller: nat | smaller % 2 == 0 && smaller < sb ensures dataShards * smaller < length {
      EvenBelow(raw, smaller);
      TooSmall(length, dataShards, raw, smaller);
    }
  }

  lemma EvenBelow(raw: nat, smaller: nat)
    requires smaller % 2 == 0 && smaller < CeilDiv(raw, 2) * 2
    ensures smaller < raw
  {
  }

  lemma TooSmall(length: nat, dataShards: nat, raw: nat, smaller: nat)
    requires smaller < raw && (raw - 1) * dataShards < length
    ensures dataShards * smaller < length
  {
    MulMono(smaller, raw - 1, dataShards);
  }

  // --- shards ---

  function Padded(p: seq<byte>, j: nat): byte {
    if j < |p| then p[j] else 0
  }

  function ShardOf(p: seq<byte>, i: nat, sb: nat): (s: Shard)
    ensures |s| == sb
  {
    seq(sb, b requires 0 <= b < sb => Padded(p, i * sb + b))
  }

  /** The shards of a payload make it up, followed by zero bytes. */
  lemma ShardsMakeUp(p: seq<byte>, i: nat, sb: nat, b: nat)
    requires b < sb
    ensures 0 <= i * sb && ShardOf(p, i, sb)[b] == if i * sb + b < |p| then p[i * sb + b] else 0
  {
    MulMono(0, i, sb);
    var j := i * sb + b;
    assert ShardOf(p, i, sb)[b] == Padded(p, j);
  }

  function Carved(p: seq<byte>, count: nat, sb: nat): (r: seq<Shard>)
    ensures |r| == count && forall i :: 0 <= i < count ==> |r[i]| == sb
  {
    seq(count, i requires 0 <= i < count => ShardOf(p, i, sb))
  }

  function Join(shards: seq<Shard>): seq<byte> {
    if shards == [] then [] else Join(shards[..|shards| - 1]) + shards[|shards| - 1]
  }

  lemma {:induction false} JoinCarved(p: seq<byte>, count: nat, sb: nat)
    ensures |Join(Carved(p, count, sb))| == count * sb
    ensures forall j :: 0 <= j < count * sb ==> Join(Carved(p, count, sb))[j] == Padded(p, j)
  {
    if count > 0 {
      JoinCarved(p, count - 1, sb);
      assert Carved(p, count, sb)[..count - 1] == Carved(p, count - 1, sb);
      assert count * sb == (count - 1) * sb + sb;
      var rest, last := Join(Carved(p, count - 1, sb)), ShardOf(p, count - 1, sb);
      forall j | 0 <= j < count * sb ensures (rest + last)[j] == Padded(p, j) {
        if j >= (count - 1) * sb {
          assert (rest + last)[j] == last[j - (count - 1) * sb];
        }
      }
    }
  }

  function Trimmed(p: seq<byte>, length: nat): seq<byte> {
    if |p| <= length then p else p[..length]
  }

  /** Cutting a payload into shards and gluing them back is the identity. */
  lemma JoinRestores(p: seq<byte>, count: nat, sb: nat)
    requires count * sb >= |p|
    ensures Trimmed(Join(Carved(p, count, sb)), |p|) == p
  {
    JoinCarved(p, count, sb);
  }

  // --- XOR parity ---

  function Xored(a: Shard, b: Shard): (r: Shard)
    requires |a| == |b|
    ensures |r| == |a|
  {
    seq(|a|, i requires 0 <= i < |a| => Xor(a[i], b[i]))
  }

  /** `start` with all shards but `skip` added in order. */
  function Summed(start: Shard, shards: seq<Shard>, skip: int): (r: Shard)
    requires forall i :: 0 <= i < |shards| ==> |shards[i]| == |start|
    ensures |r| == |start|
  {
    if shards == [] then start
    else
      var rest := Summed(start, shards[..|shards| - 1], skip);
      if skip == |shards| - 1 then rest else Xored(rest, shards[|shards| - 1])
  }

  function Zeros(sb: nat): (r: Shard)
    ensures |r| == sb
  {
    seq(sb, _ => 0)
  }

  function Parity(shards: seq<Shard>, sb: nat): (r: Shard)
    requires forall i :: 0 <= i < |shards| ==> |shards[i]| == sb
    ensures |r| == sb
  {
    Summed(Zeros(sb), shards, -1)
  }

  lemma XoredSwaps(a: Shard, b: Shard, c: Shard)
    requires |a| == |b| == |c|
    ensures Xored(Xored(a, b), c) == Xored(Xored(a, c), b)
  {
    hide Xor;
    forall i | 0 <= i < |a| ensures Xored(Xored(a, b), c)[i] == Xored(Xored(a, c), b)[i] {
      XorSwaps(a[i], b[i], c[i]);
    }
  }

  lemma XoredCancels(a: Shard, b: Shard)
    requires |a| == |b|
    ensures Xored(Xored(a, b), b) == a
  {
    hide Xor;
    forall i | 0 <= i < |a| ensures Xored(Xored(a, b), b)[i] == a[i] {
      XorCancels(a[i], b[i]);
    }
  }

  lemma {:induction false} SummedShifts(start: Shard, extra: Shard, shards: seq<Shard>, skip: int)
    requires |extra| == |start| && forall i :: 0 <= i < |shards| ==> |shards[i]| == |start|
    ensures Summed(Xored(start, extra), shards, skip) == Xored(Summed(start, shards, skip), extra)
  {
    hide Xored;
    if shards != [] {
      SummedShifts(start, extra, shards[..|shards| - 1], skip);
      XoredSwaps(Summed(start, shards[..|shards| - 1], skip), extra, shards[|shards| - 1]);
    }
  }

  /** Adding every shard, then all but one again, leaves that one. */
  lemma {:induction false} SumTwice(start: Shard, shards: seq<Shard>, skip: nat)
    requires skip < |shards| && forall i :: 0 <= i < |shards| ==> |shards[i]| == |start|
    ensures Summed(Summed(start, shards, -1), shards, skip) == Xored(start, shards[skip])
  {
    hide Xored;
    var front, last := shards[..|shards| - 1], shards[|shards| - 1];
    var once := Summed(start, front, -1);
    SummedShifts(once, last, front, skip);
    if skip == |shards| - 1 {
      SumAllTwice(start, front, skip);
    } else {
      SumTwice(start, front, skip);
      XoredCancels(Xored(start, shards[skip]), last);
    }
  }

  lemma {:induction false} SumAllTwice(start: Shard, shards: seq<Shard>, skip: int)
    requires !(0 <= skip < |shards|) && forall i :: 0 <= i < |shards| ==> |shards[i]| == |start|
    ensures Summed(Summed(start, shards, -1), shards, skip) == start
  {
    hide Xored;
    if shards != [] {
      var front, last := shards[..|shards| - 1], shards[|shards| - 1];
      SumAllTwice(start, front, skip);
      SummedShifts(Summed(start, front, -1), last, front, skip);
      XoredCancels(start, last);
    }
  }

  lemma {:induction false} SumIgnoresSkipped(start: Shard, a: seq<Shard>, b: seq<Shard>, skip: int)
    requires |a| == |b| && forall i :: 0 <= i < |a| ==> |a[i]| == |b[i]| == |start|
    requires forall i :: 0 <= i < |a| && i != skip ==> a[i] == b[i]
    ensures Summed(start, a, skip) == Summed(start, b, skip)
  {
    hide Xored;
    if a != [] {
      SumIgnoresSkipped(start, a[..|a| - 1], b[..|b| - 1], skip);
    }
  }

  lemma XoredZero(s: Shard)
    ensures Xored(Zeros(|s|), s) == s
  {
    hide Xor;
    forall i | 0 <= i < |s| ensures Xored(Zeros(|s|), s)[i] == s[i] {
      XorZero(s[i]);
    }
  }

  /** The parity shard and the other data shards determine the missing one,
      whatever stands in its place. */
  lemma ParityRebuilds(original: seq<Shard>, found: seq<Shard>, sb: nat, miss: nat)
    requires |found| == |original| && miss < |original|
    requires forall i :: 0 <= i < |original| ==> |original[i]| == |found[i]| == sb
    requires forall i :: 0 <= i < |original| && i != miss ==> found[i] == original[i]
    ensures Summed(Parity(original, sb), found, miss) == original[miss]
  {
    hide Xored, Zeros;
    SumIgnoresSkipped(Parity(original, sb), found, original, miss);
    SumTwice(Zeros(sb), original, miss);
    XoredZero(original[miss]);
  }

  method FillDataShard(buf: array<byte>, payload: seq<byte>, i: nat, sb: nat)
    requires buf.Length == sb
    modifies buf
    ensures buf[..] == ShardOf(payload, i, sb)
  {
    forall b | 0 <= b < sb {
      buf[b] := 0;
    }
    var start := i * sb;
    var end := if (i + 1) * sb < |payload| then (i + 1) * sb else |payload|;
    if start < |payload| {
      assert (i + 1) * sb == start + sb;
      forall b | 0 <= b < end - start {
        buf[b] := payload[start + b];
      }
    }
    assert forall b :: 0 <= b < sb ==> buf[b] == Padded(payload, start + b);
  }

  method XorInto(acc: array<byte>, shard: Shard)
    requires acc.Length == |shard|
    modifies acc
    ensures acc[..] == Xored(old(acc[..]), shard)
  {
    forall b | 0 <= b < acc.Length {
      acc[b] := Xor(acc[b], shard[b]);
    }
  }

  method EncodeXor(payload: seq<byte>, dataShards: nat, sb: nat) returns (out: Shard)
    ensures out == Parity(Carved(payload, dataShards, sb), sb)
  {
    hide Xored;
    var parity, shard := new byte[sb](_ => 0), new byte[sb];
    ghost var shards := Carved(payload, dataShards, sb);
    var i := 0;
    assert parity[..] == Zeros(sb);
    while i < dataShards
      invariant i <= dataShards
      invariant parity[..] == Summed(Zeros(sb), shards[..i], -1)
    {
      FillDataShard(shard, payload, i, sb);
      assert shards[..i + 1][..i] == shards[..i];
      XorInto(parity, shard[..]);
      i := i + 1;
    }
    assert shards[..dataShards] == shards;
    return parity[..];
  }

  method CarveDataShards(data: seq<byte>, dataShards: nat, sb: nat) returns (shards: seq<Shard>)
    ensures shards == Carved(data, dataShards, sb)
  {
    shards := [];
    for i := 0 to dataShards
      invariant shards == Carved(data, i, sb)
    {
      var buf := new byte[sb];
      FillDataShard(buf, data, i, sb);
      shards := shards + [buf[..]];
    }
  }

  // --- recovery ---

  /** The payload if shard `miss` is the damaged one. */
  function Candidate(shards: seq<Shard>, parity: Shard, miss: nat, length: nat): seq<byte>
    requires miss < |shards| && forall i :: 0 <= i < |shards| ==> |shards[i]| == |parity|
  {
    Trimmed(Join(shards[miss := Summed(parity, shards, miss)]), length)
  }

  method JoinShards(shards: seq<Shard>) returns (payload: seq<byte>)
    ensures payload == Join(shards)
  {
    payload := [];
    for i := 0 to |shards|
      invariant payload == Join(shards[..i])
    {
      assert shards[..i + 1][..i] == shards[..i];
      payload := payload + shards[i];
    }
    assert shards[..|shards|] == shards;
  }

  method Rebuild(shards: seq<Shard>, parity: Shard, miss: nat) returns (recovered: Shard)
    requires miss < |shards| && forall i :: 0 <= i < |shards| ==> |shards[i]| == |parity|
    ensures recovered == Summed(parity, shards, miss)
  {
    hide Xored;
    var acc := new byte[|parity|](i requires 0 <= i < |parity| => parity[i]);
    assert acc[..] == parity;
    var i := 0;
    while i < |shards|
      invariant i <= |shards| && acc[..] == Summed(parity, shards[..i], miss)
    {
      assert shards[..i + 1][..i] == shards[..i];
      if i != miss {
        XorInto(acc, shards[i]);
      }
      i := i + 1;
    }
    assert shards[..|shards|] == shards;
    return acc[..];
  }

  /** Tries the data as found, then each single data shard as the damaged one. */
  method XorRecover(data: seq<byte>, parity: seq<byte>, length: nat, dataShards: nat, sb: nat, oracle: seq<byte> -> bool)
    returns (r: Option<seq<byte>>)
    requires |parity| >= sb
    ensures XorOutcome(Carved(data, dataShards, sb), parity[..sb], length, oracle, r)
  {
    hide Carved, Join, Summed;
    var shards := CarveDataShards(data, dataShards, sb);
    var payload := JoinShards(shards);
    payload := Trimmed(payload, length);
    if oracle(payload) {
      return Some(payload);
    }
    for miss := 0 to dataShards
      invariant forall m :: 0 <= m < miss ==> !oracle(Candidate(shards, parity[..sb], m, length))
    {
      var recovered := Rebuild(shards, parity[..sb], miss);
      payload := JoinShards(shards[miss := recovered]);
      payload := Trimmed(payload, length);
      assert payload == Candidate(shards, parity[..sb], miss, length);
      if oracle(payload) {
        return Some(payload);
      }
    }
    return None;
  }

  /** The first candidate the oracle accepts, if it accepts any. */
  ghost predicate XorOutcome(shards: seq<Shard>, parity: Shard, length: nat, oracle: seq<byte> -> bool, r: Option<seq<byte>>)
    requires forall i :: 0 <= i < |shards| ==> |shards[i]| == |parity|
  {
    var intact := Trimmed(Join(shards), length);
    if oracle(intact) then r == Some(intact)
    else if r.Some? then
      exists miss :: 0 <= miss < |shards| && r == Some(Candidate(shards, parity, miss, length)) && oracle(r.value)
                     && forall m :: 0 <= m < miss ==> !oracle(Candidate(shards, parity, m, length))
    else forall m :: 0 <= m < |shards| ==> !oracle(Candidate(shards, parity, m, length))
  }

  /** The oracle knows the original from everything else. */
  ghost predicate Accepts(oracle: seq<byte> -> bool, original: seq<byte>) {
    forall p :: oracle(p) <==> p == original
  }

  /** Damage in the parity shard alone, or in one data shard alone. */
  ghost predicate OneShardDamaged(original: seq<byte>, data: seq<byte>, parity: Shard, dataShards: nat, sb: nat) {
    || data == original
    || (&& parity == Parity(Carved(original, dataShards, sb), sb)
        && exists miss :: 0 <= miss < dataShards && OnlyDamaged(original, data, dataShards, sb, miss))
  }

  ghost predicate OnlyDamaged(original: seq<byte>, data: seq<byte>, dataShards: nat, sb: nat, miss: nat) {
    forall i :: 0 <= i < dataShards && i != miss ==> ShardOf(data, i, sb) == ShardOf(original, i, sb)
  }

  lemma CandidateRestores(original: seq<byte>, data: seq<byte>, dataShards: nat, sb: nat, miss: nat)
    requires dataShards * sb >= |original| && miss < dataShards && OnlyDamaged(original, data, dataShards, sb, miss)
    ensures Candidate(Carved(data, dataShards, sb), Parity(Carved(original, dataShards, sb), sb), miss, |original|) == original
  {
    hide Join, Summed, ShardOf;
    var good, found := Carved(original, dataShards, sb), Carved(data, dataShards, sb);
    ParityRebuilds(good, found, sb, miss);
    assert found[miss := good[miss]] == good;
    JoinRestores(original, dataShards, sb);
  }

  /** Damage confined to one shard is undone exactly. */
  lemma OneShardRecovers(original: seq<byte>, data: seq<byte>, parity: Shard, dataShards: nat, sb: nat,
                         oracle: seq<byte> -> bool, r: Option<seq<byte>>)
    requires dataShards * sb >= |original| && |parity| == sb
    requires OneShardDamaged(original, data, parity, dataShards, sb) && Accepts(oracle, original)
    requires XorOutcome(Carved(data, dataShards, sb), parity, |original|, oracle, r)
    ensures r == Some(original)
  {
    hide Join, Summed, ShardOf, Carved, Parity, OnlyDamaged;
    if data == original {
      JoinRestores(original, dataShards, sb);
    } else {
      var miss :| 0 <= miss < dataShards && OnlyDamaged(original, data, dataShards, sb, miss);
      CandidateRestores(original, data, dataShards, sb, miss);
    }
  }

  // --- either scheme ---

  /** The foreign Reed-Solomon decoder followed by the checksum oracle: what comes
      of declaring some of the shards missing. */
  type Decoder = (seq<Shard>, seq<nat>) -> Attempt<seq<byte>>

  function AttemptWith(decoder: Decoder, shards: seq<Shard>): seq<nat> -> Attempt<seq<byte>> {
    missing => decoder(shards, missing)
  }

  method RsRecover(data: seq<byte>, parity: seq<byte>, dataShards: nat, parityShards: nat, sb: nat, decoder: Decoder)
    returns (r: Attempt<seq<byte>>)
    requires |parity| >= sb * parityShards
    ensures
      var attempt := AttemptWith(decoder, Carved(data, dataShards, sb) + Carved(parity, parityShards, sb));
      SomeSetDecides(attempt, dataShards + parityShards, parityShards, r)
    ensures
      var shards := Carved(data, dataShards, sb) + Carved(parity, parityShards, sb);
      r == Rejected ==> forall missing :: Combination(missing, |shards|) && |missing| == parityShards ==>
        decoder(shards, missing) == Rejected
    ensures
      var shards := Carved(data, dataShards, sb) + Carved(parity, parityShards, sb);
      exists missing :: Combination(missing, |shards|) && |missing| == parityShards && decoder(shards, missing) == r
  {
    hide ShardOf, RejectedBefore, Combination;
    var shards := CarveDataShards(data, dataShards, sb);
    ghost var dataPart := shards;
    for i := 0 to parityShards
      invariant shards == dataPart + Carved(parity, i, sb)
    {
      WithinParity(|parity|, i, parityShards, sb);
      assert parity[i * sb..i * sb + sb] == ShardOf(parity, i, sb) by {
        SliceIsShard(parity, i, sb);
      }
      assert Carved(parity, i + 1, sb) == Carved(parity, i, sb) + [ShardOf(parity, i, sb)];
      shards := shards + [parity[i * sb..i * sb + sb]];
    }
    ghost var visited;
    var attempt := AttemptWith(decoder, shards);
    r, visited := TryMissingSets(dataShards + parityShards, parityShards, attempt);
    LastDecides(attempt, visited, dataShards + parityShards, parityShards);
  }

  /** The result is that of some set of missing shards, and only if every set was
      rejected is it a rejection. */
  ghost predicate SomeSetDecides<T>(attempt: seq<nat> -> Attempt<T>, n: nat, k: nat, r: Attempt<T>) {
    && (exists d :: Combination(d, n) && |d| == k && attempt(d) == r)
    && (r == Rejected ==> forall d :: Combination(d, n) && |d| == k ==> attempt(d) == Rejected)
  }

  lemma LastDecides<T>(attempt: seq<nat> -> Attempt<T>, visited: seq<seq<nat>>, n: nat, k: nat)
    requires visited != [] && RejectedBefore(attempt, visited, n, k, visited[|visited| - 1])
    ensures exists d :: Combination(d, n) && |d| == k && attempt(d) == attempt(visited[|visited| - 1])
  {
    hide Combination, VisitedTo;
  }

  lemma WithinParity(length: nat, i: nat, count: nat, sb: nat)
    requires i < count && length >= sb * count
    ensures i * sb + sb <= length
  {
    MulMono(i + 1, count, sb);
    assert (i + 1) * sb == i * sb + sb;
  }

  lemma SliceIsShard(p: seq<byte>, i: nat, sb: nat)
    requires i * sb + sb <= |p|
    ensures p[i * sb..i * sb + sb] == ShardOf(p, i, sb)
  {
    var at := i * sb;
    forall b | 0 <= b < sb
      ensures p[at..at + sb][b] == ShardOf(p, i, sb)[b]
    {
      assert Padded(p, at + b) == p[at + b];
    }
  }

  /** If some set of missing shards leads the decoder to the original, and neither
      the engine fails nor the oracle accepts anything else, that is the result. */
  lemma SearchFindsOriginal<T>(attempt: seq<nat> -> Attempt<T>, n: nat, k: nat, original: T, d: seq<nat>, r: Attempt<T>)
    requires SomeSetDecides(attempt, n, k, r)
    requires Combination(d, n) && |d| == k && attempt(d) == Accepted(original)
    requires forall c :: Combination(c, n) && |c| == k ==> attempt(c) == Rejected || attempt(c) == Accepted(original)
    ensures r == Accepted(original)
  {
    hide Combination;
  }

  /** What recovery under a scheme may report. */
  ghost predicate RecoveryOutcome(data: seq<byte>, parity: seq<byte>, length: nat, dataShards: nat, parityShards: nat,
                                  oracle: seq<byte> -> bool, decoder: Decoder, r: Attempt<seq<byte>>)
  {
    var sb := ShardBytes(length, dataShards);
    if sb == 0 || parityShards == 0 || |data| < length || |parity| < sb * parityShards then r == Rejected
    else if parityShards == 1 then
      r != EngineError && XorOutcome(Carved(data, dataShards, sb), parity[..sb], length, oracle,
                                     if r.Accepted? then Some(r.payload) else None)
    else SomeSetDecides(AttemptWith(decoder, Carved(data, dataShards, sb) + Carved(parity, parityShards, sb)),
                        dataShards + parityShards, parityShards, r)
  }

  method TryRecover(data: seq<byte>, parity: seq<byte>, length: nat, dataShards: nat, parityShards: nat,
                    oracle: seq<byte> -> bool, decoder: Decoder)
    returns (r: Attempt<seq<byte>>)
    ensures RecoveryOutcome(data, parity, length, dataShards, parityShards, oracle, decoder, r)
  {
    hide XorOutcome, SomeSetDecides, Carved;
    var sb := ShardBytes(length, dataShards);
    if sb == 0 || parityShards == 0 || |data| < length || |parity| < sb * parityShards {
      return Rejected;
    }
    if parityShards == 1 {
      var found := XorRecover(data, parity, length, dataShards, sb, oracle);
      return if found.Some? then Accepted(found.value) else Rejected;
    }
    r := RsRecover(data, parity, dataShards, parityShards, sb, decoder);
  }

  /** The parity of a block; `encoder` is the foreign Reed-Solomon engine. */
  method EncodeParity(payload: seq<byte>, dataShards: nat, parityShards: nat,
                      encoder: (seq<byte>, nat, nat, nat) -> Option<seq<byte>>) returns (parity: Option<seq<byte>>)
    ensures payload == [] || dataShards == 0 || parityShards == 0 ==> parity == Some([])
    ensures
      var sb := ShardBytes(|payload|, dataShards);
      sb > 0 && parityShards == 1 ==> parity == Some(Parity(Carved(payload, dataShards, sb), sb))
    ensures
      var sb := ShardBytes(|payload|, dataShards);
      sb > 0 && parityShards > 1 ==> parity == encoder(payload, dataShards, parityShards, sb)
  {
    var sb := ShardBytes(|payload|, dataShards);
    if sb == 0 || parityShards == 0 {
      return Some([]);
    }
    if parityShards == 1 {
      var xor := EncodeXor(payload, dataShards, sb);
      return Some(xor);
    }
    parity := encoder(payload, dataShards, parityShards, sb);
  }

  /** The whole round trip of the XOR scheme: a non-empty block written with its
      parity, damaged in one data shard or in the parity alone, is recovered. */
  lemma RoundTripRecovers(original: seq<byte>, data: seq<byte>, parity: seq<byte>, dataShards: nat,
                          oracle: seq<byte> -> bool, decoder: Decoder, r: Attempt<seq<byte>>)
    requires original != [] && dataShards > 0 && |data| == |original|
    requires |parity| == ShardBytes(|original|, dataShards)
    requires OneShardDamaged(original, data, parity, dataShards, ShardBytes(|original|, dataShards))
    requires Accepts(oracle, original)
    requires RecoveryOutcome(data, parity, |original|, dataShards, 1, oracle, decoder, r)
    ensures r == Accepted(original)
  {
    hide ShardBytes, XorOutcome, OneShardDamaged, Accepts, Carved;
    var sb := ShardBytes(|original|, dataShards);
    ShardsCover(|original|, dataShards);
    assert parity[..sb] == parity;
    OneShardRecovers(original, data, parity, dataShards, sb, oracle, if r.Accepted? then Some(r.payload) else None);
  }
}
