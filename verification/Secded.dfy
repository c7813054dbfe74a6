/**
 src/secded.rs: the Hsiao (72, 64) single-error-correcting, double-error-detecting
 code, word by word over a block.

 A 64-bit word is its eight little-endian bytes, so data bit `b` is bit `b % 8` of
 byte `b / 8`.
 */
module Secded {
  import opened Core
  import opened XorBytes

  datatype Outcome = Clean | Corrected | Uncorrectable

  const DATA_BITS := 64
  const STORED_BITS := 72

  // --- bytes ---

  function Bit(k: nat): byte
    requires k < 8
  {
    if k == 0 then 1 else if k == 1 then 2 else if k == 2 then 4 else if k == 3 then 8
    else if k == 4 then 16 else if k == 5 then 32 else if k == 6 then 64 else 128
  }

  predicate Has(b: byte, mask: byte) {
    b & mask != 0
  }

  predicate IsSet(b: byte, k: nat)
    requires k < 8
  {
    Has(b, Bit(k))
  }

  function BitAt(b: byte, k: nat): nat
    requires k < 8
  {
    if IsSet(b, k) then 1 else 0
  }

  function Weight(b: byte): nat {
    BitAt(b, 0) + BitAt(b, 1) + BitAt(b, 2) + BitAt(b, 3) + BitAt(b, 4) + BitAt(b, 5) + BitAt(b, 6) + BitAt(b, 7)
  }

  predicate Odd(b: byte) {
    Weight(b) % 2 == 1
  }

  predicate PowerOfTwo(b: byte) {
    b != 0 && b & (b - 1) == 0
  }

  lemma HasXor(a: byte, b: byte, mask: byte)
    requires PowerOfTwo(mask)
    ensures Has(a ^ b, mask) <==> Has(a, mask) != Has(b, mask)
    ensures Has(a & b, mask) <==> Has(a, mask) && Has(b, mask)
  {
  }

  lemma BitIsPower(k: nat)
    requires k < 8
    ensures PowerOfTwo(Bit(k))
  {
  }

  lemma BitXor(a: byte, b: byte, k: nat)
    requires k < 8
    ensures IsSet(a ^ b, k) <==> IsSet(a, k) != IsSet(b, k)
    ensures BitAt(a ^ b, k) + 2 * BitAt(a & b, k) == BitAt(a, k) + BitAt(b, k)
  {
    hide Bit, Has, PowerOfTwo;
    BitIsPower(k);
    HasXor(a, b, Bit(k));
  }

  lemma WeightXor(a: byte, b: byte)
    ensures Weight(a ^ b) + 2 * Weight(a & b) == Weight(a) + Weight(b)
  {
    hide BitAt, IsSet;
    BitXor(a, b, 0); BitXor(a, b, 1); BitXor(a, b, 2); BitXor(a, b, 3);
    BitXor(a, b, 4); BitXor(a, b, 5); BitXor(a, b, 6); BitXor(a, b, 7);
  }

  lemma OddXor(a: byte, b: byte)
    ensures Odd(a ^ b) <==> Odd(a) != Odd(b)
  {
    hide Weight;
    WeightXor(a, b);
  }

  lemma PowersWeighOne(b: byte)
    ensures PowerOfTwo(b) <==> Weight(b) == 1
    ensures PowerOfTwo(b) <==> exists k :: 0 <= k < 8 && Bit(k) == b
  {
    if PowerOfTwo(b) {
      assert b in [Bit(0), Bit(1), Bit(2), Bit(3), Bit(4), Bit(5), Bit(6), Bit(7)];
    }
  }

  // --- the columns of the parity-check matrix ---

  predicate Eligible(b: byte) {
    Odd(b) && Weight(b) >= 3
  }

  /** `cols` are all the eligible bytes below `limit`, ascending. */
  ghost predicate Ascending(cols: seq<byte>, limit: nat) {
    && (forall i, j :: 0 <= i < j < |cols| ==> cols[i] as int < cols[j] as int)
    && (forall i :: 0 <= i < |cols| ==> Eligible(cols[i]) && cols[i] as int < limit)
    && (forall b: byte :: Eligible(b) && b as int < limit ==> b in cols)
  }

  /** The first 64 eligible bytes. */
  ghost predicate DataColumns(cols: seq<byte>) {
    |cols| == DATA_BITS && exists limit :: Ascending(cols, limit)
  }

  function PowersBelow(b: byte): nat {
    (if b > 1 then 1 else 0) + (if b > 2 then 1 else 0) + (if b > 4 then 1 else 0) + (if b > 8 then 1 else 0)
    + (if b > 16 then 1 else 0) + (if b > 32 then 1 else 0) + (if b > 64 then 1 else 0) + (if b > 128 then 1 else 0)
  }

  /** Of every two neighbours one has odd weight. */
  function OddBelow(b: byte): nat {
    b as int / 2 + if b & 1 == 1 && Odd(b - 1) then 1 else 0
  }

  lemma Successor(b: byte)
    requires b != 255
    ensures (b + 1) as int == b as int + 1 && b < b + 1
    ensures b & 1 == 1 <==> b as int % 2 == 1
    ensures (b + 1) & 1 == 1 <==> b & 1 != 1
  {
  }

  lemma NeighboursDiffer(b: byte)
    requires b & 1 == 1
    ensures Odd(b) != Odd(b - 1)
  {
    assert b - 1 == b ^ 1;
    assert Odd(1);
    hide Odd;
    OddXor(b, 1);
  }

  lemma NextOdd(b: byte)
    requires b != 255
    ensures OddBelow(b + 1) == OddBelow(b) + if Odd(b) then 1 else 0
  {
    hide Odd;
    Successor(b);
    if b & 1 == 1 {
      NeighboursDiffer(b);
    } else {
      assert b + 1 - 1 == b;
    }
  }

  lemma NextPower(b: byte)
    requires b != 255
    ensures PowersBelow(b + 1) == PowersBelow(b) + if PowerOfTwo(b) then 1 else 0
  {
  }

  lemma SameValue(a: byte, b: byte)
    requires a as int == b as int
    ensures a == b
  {
  }

  lemma NextEligible(cols: seq<byte>, b: byte)
    requires Ascending(cols, b as int)
    ensures Ascending(if Eligible(b) then cols + [b] else cols, b as int + 1)
  {
    hide Eligible;
    var next := if Eligible(b) then cols + [b] else cols;
    forall c: byte | Eligible(c) && c as int < b as int + 1 ensures c in next {
      if c as int == b as int {
        SameValue(c, b);
        assert next[|cols|] == b;
      } else {
        assert c in cols;
      }
    }
  }

  /** What the column search knows before looking at `byte`. */
  ghost predicate Searched(cols: seq<byte>, next: byte) {
    Ascending(cols, next as int) && |cols| + PowersBelow(next) == OddBelow(next)
  }

  lemma SearchStarts()
    ensures Searched([], 0)
  {
  }

  lemma SearchAdvances(cols: seq<byte>, next: byte)
    requires Searched(cols, next) && next != 255
    ensures Searched(if Eligible(next) then cols + [next] else cols, next + 1)
  {
    hide Odd, Weight, PowerOfTwo, Ascending, PowersBelow, OddBelow;
    NextEligible(cols, next);
    NextOdd(next);
    NextPower(next);
    PowersWeighOne(next);
    Successor(next);
    assert Odd(next) <==> Weight(next) % 2 == 1 by {
      OddByWeight(next);
    }
  }

  lemma OddByWeight(next: byte)
    ensures Odd(next) <==> Weight(next) % 2 == 1
  {
    hide Weight;
  }

  /** 120 bytes are eligible, so 64 are found before the last byte. */
  lemma SearchEndsEarly(cols: seq<byte>, next: byte)
    requires Searched(cols, next) && |cols| < DATA_BITS
    ensures next != 255
  {
    assert Odd(254);
  }

  lemma SearchFound(cols: seq<byte>, next: byte)
    requires Searched(cols, next) && |cols| == DATA_BITS
    ensures DataColumns(cols)
  {
    hide Ascending;
  }

  method BuildDataColumns() returns (cols: seq<byte>)
    ensures DataColumns(cols)
  {
    hide Eligible, Ascending, Searched;
    cols := [];
    var next: byte := 0;
    SearchStarts();
    while true
      invariant |cols| < DATA_BITS && Searched(cols, next)
      decreases 255 - next as int
    {
      SearchEndsEarly(cols, next);
      SearchAdvances(cols, next);
      if Eligible(next) {
        cols := cols + [next];
      }
      if next == 255 || |cols| == DATA_BITS {
        assert Searched(cols, next + 1);
        break;
      }
      next := next + 1;
    }
    SearchFound(cols, next + 1);
  }

  // --- the check byte ---

  /** The columns of the first `k` bits of `b`, summed; bit `i` has `cols[base + i]`. */
  function LaneCheck(cols: seq<byte>, base: nat, b: byte, k: nat): byte
    requires k <= 8 && base + 8 <= |cols|
  {
    if k == 0 then 0
    else if IsSet(b, k - 1) then Xor(LaneCheck(cols, base, b, k - 1), cols[base + k - 1])
    else LaneCheck(cols, base, b, k - 1)
  }

  /** The check value of the first `lanes` bytes of a word. */
  function CheckLanes(cols: seq<byte>, word: seq<byte>, lanes: nat): byte
    requires |cols| == DATA_BITS && |word| == 8 && lanes <= 8
  {
    if lanes == 0 then 0
    else Xor(CheckLanes(cols, word, lanes - 1), LaneCheck(cols, 8 * (lanes - 1), word[lanes - 1], 8))
  }

  function Check(cols: seq<byte>, word: seq<byte>): byte
    requires |cols| == DATA_BITS && |word| == 8
  {
    CheckLanes(cols, word, 8)
  }

  ghost predicate IsTable(row: seq<byte>, cols: seq<byte>, base: nat, known: nat)
    requires base + 8 <= |cols| && known <= 256
  {
    |row| == known && forall b :: 0 <= b < known ==> row[b] == LaneCheck(cols, base, b as byte, 8)
  }

  ghost predicate AreTables(tables: seq<seq<byte>>, cols: seq<byte>, known: nat)
    requires known <= 8 && |cols| == DATA_BITS
  {
    |tables| == known && forall lane :: 0 <= lane < known ==> IsTable(tables[lane], cols, 8 * lane, 256)
  }

  /** A table looks up what it is indexed by. */
  lemma TableLookup(row: seq<byte>, cols: seq<byte>, base: nat, b: byte)
    requires base + 8 <= |cols| && IsTable(row, cols, base, 256)
    ensures 0 <= b as int < |row| && row[b as int] == LaneCheck(cols, base, b, 8)
  {
    hide LaneCheck;
    assert b as int as byte == b;
  }

  method BuildTables(cols: seq<byte>) returns (tables: seq<seq<byte>>)
    requires |cols| == DATA_BITS
    ensures AreTables(tables, cols, 8)
  {
    hide IsTable;
    tables := [];
    var lane := 0;
    while lane < 8
      invariant lane <= 8 && AreTables(tables, cols, lane)
    {
      var row := BuildRow(cols, 8 * lane);
      tables := tables + [row];
      lane := lane + 1;
    }
  }

  method BuildRow(cols: seq<byte>, base: nat) returns (row: seq<byte>)
    requires base + 8 <= |cols|
    ensures IsTable(row, cols, base, 256)
  {
    hide LaneCheck;
    row := [];
    var b := 0;
    while b < 256
      invariant b <= 256 && IsTable(row, cols, base, b)
    {
      var acc := LaneSum(cols, base, b as byte);
      row := row + [acc];
      b := b + 1;
    }
  }

  method LaneSum(cols: seq<byte>, base: nat, b: byte) returns (acc: byte)
    requires base + 8 <= |cols|
    ensures acc == LaneCheck(cols, base, b, 8)
  {
    hide IsSet, Xor;
    acc := 0;
    var bit := 0;
    while bit < 8
      invariant bit <= 8 && acc == LaneCheck(cols, base, b, bit)
    {
      if IsSet(b, bit) {
        acc := Xor(acc, cols[base + bit]);
      }
      bit := bit + 1;
    }
  }

  method CheckByte(tables: seq<seq<byte>>, word: seq<byte>, ghost cols: seq<byte>) returns (check: byte)
    requires |cols| == DATA_BITS && |word| == 8 && AreTables(tables, cols, 8)
    ensures check == Check(cols, word)
  {
    hide LaneCheck, IsTable, Xor;
    TableLookup(tables[0], cols, 0, word[0]);
    TableLookup(tables[1], cols, 8, word[1]);
    TableLookup(tables[2], cols, 16, word[2]);
    TableLookup(tables[3], cols, 24, word[3]);
    TableLookup(tables[4], cols, 32, word[4]);
    TableLookup(tables[5], cols, 40, word[5]);
    TableLookup(tables[6], cols, 48, word[6]);
    TableLookup(tables[7], cols, 56, word[7]);
    check := Xor(tables[0][word[0] as int], tables[1][word[1] as int]);
    check := Xor(Xor(check, tables[2][word[2] as int]), tables[3][word[3] as int]);
    check := Xor(Xor(check, tables[4][word[4] as int]), tables[5][word[5] as int]);
    check := Xor(Xor(check, tables[6][word[6] as int]), tables[7][word[7] as int]);
    assert CheckLanes(cols, word, 1) == LaneCheck(cols, 0, word[0], 8) by {
      XorZero(LaneCheck(cols, 0, word[0], 8));
    }
    assert CheckLanes(cols, word, 3) == Xor(CheckLanes(cols, word, 2), LaneCheck(cols, 16, word[2], 8));
    assert CheckLanes(cols, word, 5) == Xor(CheckLanes(cols, word, 4), LaneCheck(cols, 32, word[4], 8));
    assert CheckLanes(cols, word, 7) == Xor(CheckLanes(cols, word, 6), LaneCheck(cols, 48, word[6], 8));
  }

  // --- stored words ---

  /** A data word and its check byte: 72 bits, of which `p` is data bit `p` below 64
      and check bit `p - 64` from there on. */
  datatype Stored = Stored(data: seq<byte>, check: byte) {
    ghost predicate Valid() {
      |data| == 8
    }
  }

  function FlipData(data: seq<byte>, bit: nat): (r: seq<byte>)
    requires |data| == 8 && bit < DATA_BITS
    ensures |r| == 8
  {
    data[bit / 8 := Xor(data[bit / 8], Bit(bit % 8))]
  }

  function Flip(s: Stored, p: nat): (r: Stored)
    requires s.Valid() && p < STORED_BITS
    ensures r.Valid()
  {
    if p < DATA_BITS then s.(data := FlipData(s.data, p)) else s.(check := Xor(s.check, Bit(p - DATA_BITS)))
  }

  function Column(cols: seq<byte>, p: nat): byte
    requires |cols| == DATA_BITS && p < STORED_BITS
  {
    if p < DATA_BITS then cols[p] else Bit(p - DATA_BITS)
  }

  function Syndrome(cols: seq<byte>, s: Stored): byte
    requires |cols| == DATA_BITS && s.Valid()
  {
    Xor(s.check, Check(cols, s.data))
  }

  lemma DistinctBits(i: nat, j: nat)
    requires i < 8 && j < 8
    ensures IsSet(Bit(j), i) <==> i == j
    ensures Bit(i) == Bit(j) ==> i == j
  {
  }

  lemma FlippedBit(b: byte, j: nat, i: nat)
    requires i < 8 && j < 8
    ensures IsSet(Xor(b, Bit(j)), i) <==> IsSet(b, i) != (i == j)
  {
    hide IsSet, Bit;
    BitXor(b, Bit(j), i);
    DistinctBits(i, j);
  }

  lemma {:induction false} LaneFlip(cols: seq<byte>, base: nat, b: byte, j: nat, k: nat)
    requires j < 8 && k <= 8 && base + 8 <= |cols|
    ensures LaneCheck(cols, base, Xor(b, Bit(j)), k) ==
              if j < k then Xor(LaneCheck(cols, base, b, k), cols[base + j]) else LaneCheck(cols, base, b, k)
  {
    hide IsSet, Bit, Xor;
    if k > 0 {
      LaneFlip(cols, base, b, j, k - 1);
      FlippedBit(b, j, k - 1);
      var rest := LaneCheck(cols, base, b, k - 1);
      XorSwaps(rest, cols[base + j], cols[base + k - 1]);
      XorCancels(rest, cols[base + k - 1]);
    }
  }

  lemma {:induction false} CheckFlip(cols: seq<byte>, word: seq<byte>, bit: nat, lanes: nat)
    requires |cols| == DATA_BITS && |word| == 8 && bit < DATA_BITS && lanes <= 8
    ensures CheckLanes(cols, FlipData(word, bit), lanes) ==
              if bit / 8 < lanes then Xor(CheckLanes(cols, word, lanes), cols[bit]) else CheckLanes(cols, word, lanes)
  {
    hide LaneCheck, Bit, Xor;
    if lanes > 0 {
      CheckFlip(cols, word, bit, lanes - 1);
      LaneFlip(cols, 8 * (bit / 8), word[bit / 8], bit % 8, 8);
      var lane := LaneCheck(cols, 8 * (lanes - 1), word[lanes - 1], 8);
      XorSwaps(CheckLanes(cols, word, lanes - 1), cols[bit], lane);
      XorAssociates(CheckLanes(cols, word, lanes - 1), lane, cols[bit]);
    }
  }

  /** A flipped bit adds its column to the syndrome. */
  lemma SyndromeFlip(cols: seq<byte>, s: Stored, p: nat)
    requires |cols| == DATA_BITS && s.Valid() && p < STORED_BITS
    ensures Syndrome(cols, Flip(s, p)) == Xor(Syndrome(cols, s), Column(cols, p))
  {
    hide CheckLanes, Bit, Xor;
    if p < DATA_BITS {
      CheckFlip(cols, s.data, p, 8);
      XorAssociates(s.check, Check(cols, s.data), cols[p]);
    } else {
      XorSwaps(s.check, Bit(p - DATA_BITS), Check(cols, s.data));
    }
  }

  /** All 72 columns are odd, and no two are equal. */
  lemma ColumnsAreOdd(cols: seq<byte>, p: nat)
    requires DataColumns(cols) && p < STORED_BITS
    ensures Odd(Column(cols, p))
  {
    if p < DATA_BITS {
      hide Odd;
      assert Eligible(cols[p]);
    } else {
      hide PowerOfTwo, Weight;
      BitIsPower(p - DATA_BITS);
      PowersWeighOne(Bit(p - DATA_BITS));
    }
  }

  lemma ColumnsDiffer(cols: seq<byte>, p: nat, q: nat)
    requires DataColumns(cols) && p < q < STORED_BITS
    ensures Column(cols, p) != Column(cols, q)
  {
    hide PowerOfTwo, Weight, Odd, Bit;
    if p < DATA_BITS <= q {
      assert Eligible(cols[p]);
      BitIsPower(q - DATA_BITS);
      PowersWeighOne(Bit(q - DATA_BITS));
    } else if DATA_BITS <= p {
      DistinctBits(p - DATA_BITS, q - DATA_BITS);
    }
  }

  /** The first bit from `p` on whose column is the syndrome, or 72. */
  function Locate(cols: seq<byte>, syndrome: byte, p: nat): (r: nat)
    requires |cols| == DATA_BITS && p <= STORED_BITS
    ensures p <= r <= STORED_BITS
    ensures r < STORED_BITS ==> Column(cols, r) == syndrome
    ensures forall q :: p <= q < r ==> Column(cols, q) != syndrome
    decreases STORED_BITS - p
  {
    if p == STORED_BITS || Column(cols, p) == syndrome then p else Locate(cols, syndrome, p + 1)
  }

  /** Nearest-codeword decoding: undo the one flip that explains the syndrome. */
  function Decode(cols: seq<byte>, s: Stored): (r: (Outcome, seq<byte>))
    requires |cols| == DATA_BITS && s.Valid()
    ensures |r.1| == 8
  {
    var syndrome := Syndrome(cols, s);
    var p := Locate(cols, syndrome, 0);
    if syndrome == 0 then (Clean, s.data)
    else if p < STORED_BITS then (Corrected, Flip(s, p).data)
    else (Uncorrectable, s.data)
  }

  lemma FlipTwice(s: Stored, p: nat)
    requires s.Valid() && p < STORED_BITS
    ensures Flip(Flip(s, p), p) == s
  {
    hide Bit, Xor;
    if p < DATA_BITS {
      XorCancels(s.data[p / 8], Bit(p % 8));
    } else {
      XorCancels(s.check, Bit(p - DATA_BITS));
    }
  }

  lemma LocateColumn(cols: seq<byte>, p: nat)
    requires DataColumns(cols) && p < STORED_BITS
    ensures Locate(cols, Column(cols, p), 0) == p
  {
    hide Column, Ascending;
    var r := Locate(cols, Column(cols, p), 0);
    if r < p {
      ColumnsDiffer(cols, r, p);
    }
  }

  lemma OddIsNotZero(b: byte)
    requires Odd(b)
    ensures b != 0
  {
  }

  /** A codeword decodes to itself, and so does one with any one bit flipped. */
  lemma DecodeCorrects(cols: seq<byte>, s: Stored, p: nat)
    requires DataColumns(cols) && s.Valid() && Syndrome(cols, s) == 0 && p < STORED_BITS
    ensures Decode(cols, s) == (Clean, s.data)
    ensures Decode(cols, Flip(s, p)) == (Corrected, s.data)
  {
    hide Xor, Odd, Column, Ascending, Flip, Syndrome;
    SyndromeFlip(cols, s, p);
    XorZero(Column(cols, p));
    ColumnsAreOdd(cols, p);
    OddIsNotZero(Column(cols, p));
    LocateColumn(cols, p);
    FlipTwice(s, p);
  }

  /** A codeword with any two bits flipped is never taken for another. */
  lemma DecodeDetects(cols: seq<byte>, s: Stored, p: nat, q: nat)
    requires DataColumns(cols) && s.Valid() && Syndrome(cols, s) == 0 && p < q < STORED_BITS
    ensures Decode(cols, Flip(Flip(s, p), q)) == (Uncorrectable, Flip(Flip(s, p), q).data)
  {
    hide Xor, Odd, Column, Ascending, Flip, Syndrome;
    SyndromeFlip(cols, s, p);
    SyndromeFlip(cols, Flip(s, p), q);
    XorZero(Column(cols, p));
    TwoColumns(cols, p, q);
    var r := Locate(cols, Xor(Column(cols, p), Column(cols, q)), 0);
    if r < STORED_BITS {
      ColumnsAreOdd(cols, r);
    }
  }

  lemma TwoColumns(cols: seq<byte>, p: nat, q: nat)
    requires DataColumns(cols) && p < q < STORED_BITS
    ensures Xor(Column(cols, p), Column(cols, q)) != 0
    ensures !Odd(Xor(Column(cols, p), Column(cols, q)))
  {
    hide Odd, Column, Ascending;
    ColumnsDiffer(cols, p, q);
    XorEqual(Column(cols, p), Column(cols, q));
    ColumnsAreOdd(cols, p);
    ColumnsAreOdd(cols, q);
    OddXor(Column(cols, p), Column(cols, q));
  }

  lemma NoColumn(cols: seq<byte>, syndrome: byte)
    requires DataColumns(cols) && !PowerOfTwo(syndrome)
    requires !Odd(syndrome) || syndrome !in cols
    ensures Locate(cols, syndrome, 0) == STORED_BITS
  {
    hide Odd, PowerOfTwo, Ascending, Bit;
    var p := Locate(cols, syndrome, 0);
    if p < STORED_BITS {
      ColumnsAreOdd(cols, p);
      if p >= DATA_BITS {
        BitIsPower(p - DATA_BITS);
      }
    }
  }

  lemma PowerIsCheckColumn(cols: seq<byte>, s: Stored)
    requires DataColumns(cols) && s.Valid() && PowerOfTwo(Syndrome(cols, s))
    ensures Decode(cols, s) == (Corrected, s.data)
  {
    hide Bit, Ascending, Syndrome;
    PowersWeighOne(Syndrome(cols, s));
    var k :| 0 <= k < 8 && Bit(k) == Syndrome(cols, s);
    LocateColumn(cols, DATA_BITS + k);
  }

  // --- blocks ---

  /** One check byte for each eight bytes of payload, the last padded. */
  function ParityLength(n: nat): nat {
    (n + 7) / 8
  }

  /** Word `i` of a payload, padded with zeros. */
  function Word(payload: seq<byte>, i: nat): (w: seq<byte>)
    ensures |w| == 8
  {
    seq(8, k requires 0 <= k < 8 => if 8 * i + k < |payload| then payload[8 * i + k] else 0)
  }

  /** The words of a payload make it up, followed by fewer than eight zero bytes. */
  lemma WordsMakeUp(payload: seq<byte>, j: nat)
    requires j < 8 * ParityLength(|payload|)
    ensures 8 * ParityLength(|payload|) - |payload| < 8
    ensures Word(payload, j / 8)[j % 8] == if j < |payload| then payload[j] else 0
  {
    assert 8 * (j / 8) + j % 8 == j;
  }

  function Decoded(cols: seq<byte>, payload: seq<byte>, parity: seq<byte>, i: nat): (r: (Outcome, seq<byte>))
    requires |cols| == DATA_BITS && i < |parity|
    ensures |r.1| == 8
  {
    Decode(cols, Stored(Word(payload, i), parity[i]))
  }

  /** The payload with the words below `words` decoded. */
  function Healed(cols: seq<byte>, payload: seq<byte>, parity: seq<byte>, words: nat): (r: seq<byte>)
    requires |cols| == DATA_BITS && words <= |parity|
    ensures |r| == |payload|
  {
    seq(|payload|, j requires 0 <= j < |payload| =>
      if j / 8 < words then Decoded(cols, payload, parity, j / 8).1[j % 8] else payload[j])
  }

  /** `payload` with word `i` replaced, as far as it reaches. */
  function Patched(payload: seq<byte>, i: nat, word: seq<byte>): (r: seq<byte>)
    requires |word| == 8
    ensures |r| == |payload|
  {
    seq(|payload|, j requires 0 <= j < |payload| => if j / 8 == i then word[j % 8] else payload[j])
  }

  lemma HealedStep(cols: seq<byte>, payload: seq<byte>, parity: seq<byte>, i: nat)
    requires |cols| == DATA_BITS && i < |parity|
    ensures Word(Healed(cols, payload, parity, i), i) == Word(payload, i)
    ensures Patched(Healed(cols, payload, parity, i), i, Decoded(cols, payload, parity, i).1) ==
            Healed(cols, payload, parity, i + 1)
  {
    hide Decode;
  }

  lemma PatchedWithSame(payload: seq<byte>, i: nat)
    ensures Patched(payload, i, Word(payload, i)) == payload
  {
  }

  lemma CleanKeepsWord(cols: seq<byte>, s: Stored)
    requires |cols| == DATA_BITS && s.Valid()
    ensures Decode(cols, s).0 != Corrected ==> Decode(cols, s).1 == s.data
  {
  }

  /** What healing a whole block may report, and leave behind. */
  ghost predicate Judged(cols: seq<byte>, before: seq<byte>, parity: seq<byte>, outcome: Outcome, after: seq<byte>)
    requires |cols| == DATA_BITS && |parity| >= ParityLength(|before|)
  {
    var words := ParityLength(|before|);
    match outcome
    case Uncorrectable =>
      exists w ::
        && 0 <= w < words && Decoded(cols, before, parity, w).0 == Uncorrectable
        && after == Healed(cols, before, parity, w + 1)
        && forall v :: 0 <= v < w ==> Decoded(cols, before, parity, v).0 != Uncorrectable
    case Corrected =>
      && after == Healed(cols, before, parity, words)
      && (forall w :: 0 <= w < words ==> Decoded(cols, before, parity, w).0 != Uncorrectable)
      && exists w :: 0 <= w < words && Decoded(cols, before, parity, w).0 == Corrected
    case Clean =>
      && after == Healed(cols, before, parity, words)
      && forall w :: 0 <= w < words ==> Decoded(cols, before, parity, w).0 == Clean
  }

  // --- what healing a block guarantees ---

  /** Word `i` as the writer stored it. */
  function Encoded(cols: seq<byte>, payload: seq<byte>, i: nat): (s: Stored)
    requires |cols| == DATA_BITS
    ensures s.Valid()
  {
    Stored(Word(payload, i), Check(cols, Word(payload, i)))
  }

  ghost predicate OneFlip(s: Stored, t: Stored)
    requires s.Valid()
  {
    exists p :: 0 <= p < STORED_BITS && t == Flip(s, p)
  }

  ghost predicate TwoFlips(s: Stored, t: Stored)
    requires s.Valid()
  {
    exists p, q :: 0 <= p < q < STORED_BITS && t == Flip(Flip(s, p), q)
  }

  lemma EncodedIsCodeword(cols: seq<byte>, payload: seq<byte>, i: nat)
    requires |cols| == DATA_BITS
    ensures Syndrome(cols, Encoded(cols, payload, i)) == 0
  {
    hide Check;
    XorEqual(Check(cols, Word(payload, i)), Check(cols, Word(payload, i)));
  }

  lemma WordHeals(cols: seq<byte>, original: seq<byte>, i: nat, found: Stored)
    requires DataColumns(cols) && found.Valid()
    requires found == Encoded(cols, original, i) || OneFlip(Encoded(cols, original, i), found)
    ensures Decode(cols, found).1 == Word(original, i)
    ensures Decode(cols, found).0 == if found == Encoded(cols, original, i) then Clean else Corrected
  {
    hide Decode, Check, Word, Flip, Ascending;
    var s := Encoded(cols, original, i);
    EncodedIsCodeword(cols, original, i);
    if found == s {
      DecodeCorrects(cols, s, 0);
    } else {
      var p :| 0 <= p < STORED_BITS && found == Flip(s, p);
      DecodeCorrects(cols, s, p);
    }
  }

  lemma HealedIsOriginal(cols: seq<byte>, original: seq<byte>, damaged: seq<byte>, parity: seq<byte>)
    requires |cols| == DATA_BITS && |damaged| == |original| && |parity| >= ParityLength(|original|)
    requires forall i :: 0 <= i < ParityLength(|original|) ==> Decoded(cols, damaged, parity, i).1 == Word(original, i)
    ensures Healed(cols, damaged, parity, ParityLength(|original|)) == original
  {
    hide Decode;
    var healed := Healed(cols, damaged, parity, ParityLength(|original|));
    forall j | 0 <= j < |original| ensures healed[j] == original[j] {
      assert Decoded(cols, damaged, parity, j / 8).1 == Word(original, j / 8);
    }
  }

  /** With at most one flipped bit in each stored word, data or check, the payload
      comes back exactly, whatever its length, and `Clean` means nothing was wrong. */
  lemma SingleFlipsHeal(cols: seq<byte>, original: seq<byte>, damaged: seq<byte>, parity: seq<byte>, outcome: Outcome,
                        after: seq<byte>)
    requires DataColumns(cols) && |damaged| == |original| && |parity| >= ParityLength(|original|)
    requires forall i :: 0 <= i < ParityLength(|original|) ==>
               || Stored(Word(damaged, i), parity[i]) == Encoded(cols, original, i)
               || OneFlip(Encoded(cols, original, i), Stored(Word(damaged, i), parity[i]))
    requires Judged(cols, damaged, parity, outcome, after)
    ensures after == original && outcome != Uncorrectable
    ensures outcome == Clean <==> forall i :: 0 <= i < ParityLength(|original|) ==>
              Stored(Word(damaged, i), parity[i]) == Encoded(cols, original, i)
  {
    hide Decode, Encoded, Word, OneFlip, Ascending, Healed;
    forall i | 0 <= i < ParityLength(|original|)
      ensures Decoded(cols, damaged, parity, i).1 == Word(original, i)
      ensures Decoded(cols, damaged, parity, i).0 ==
                if Stored(Word(damaged, i), parity[i]) == Encoded(cols, original, i) then Clean else Corrected
    {
      WordHeals(cols, original, i, Stored(Word(damaged, i), parity[i]));
    }
    HealedIsOriginal(cols, original, damaged, parity);
  }

  /** `parity` is the trailer the writer appends to `payload`. */
  ghost predicate TrailerOf(cols: seq<byte>, payload: seq<byte>, parity: seq<byte>)
    requires |cols| == DATA_BITS
  {
    |parity| == ParityLength(|payload|)
    && forall i :: 0 <= i < |parity| ==> parity[i] == Check(cols, Word(payload, i))
  }

  /** The whole round trip: encode a block, flip at most one bit in each stored word of
      block and trailer, and correct it. */
  lemma RoundTripHeals(cols: seq<byte>, original: seq<byte>, trailer: seq<byte>, damaged: seq<byte>, parity: seq<byte>,
                       outcome: Outcome, after: seq<byte>)
    requires DataColumns(cols) && TrailerOf(cols, original, trailer)
    requires |damaged| == |original| && |parity| == |trailer|
    requires forall i :: 0 <= i < |trailer| ==>
               || Stored(Word(damaged, i), parity[i]) == Stored(Word(original, i), trailer[i])
               || OneFlip(Stored(Word(original, i), trailer[i]), Stored(Word(damaged, i), parity[i]))
    requires Judged(cols, damaged, parity, outcome, after)
    ensures after == original && outcome != Uncorrectable
  {
    hide Check, Word, OneFlip, Ascending, Judged;
    forall i | 0 <= i < |trailer| ensures Stored(Word(original, i), trailer[i]) == Encoded(cols, original, i) {
    }
    SingleFlipsHeal(cols, original, damaged, parity, outcome, after);
  }

  /** Two flipped bits in any one stored word are reported, whatever the others hold. */
  lemma DoubleFlipsDetected(cols: seq<byte>, original: seq<byte>, damaged: seq<byte>, parity: seq<byte>, i: nat, outcome: Outcome,
                            after: seq<byte>)
    requires DataColumns(cols) && |damaged| == |original| && |parity| >= ParityLength(|original|)
    requires i < ParityLength(|original|)
    requires TwoFlips(Encoded(cols, original, i), Stored(Word(damaged, i), parity[i]))
    requires Judged(cols, damaged, parity, outcome, after)
    ensures outcome == Uncorrectable
  {
    hide Decode, Encoded, Word, Flip, Ascending, Healed;
    var s, found := Encoded(cols, original, i), Stored(Word(damaged, i), parity[i]);
    var p, q :| 0 <= p < q < STORED_BITS && found == Flip(Flip(s, p), q);
    EncodedIsCodeword(cols, original, i);
    DecodeDetects(cols, s, p, q);
    assert Decoded(cols, damaged, parity, i).0 == Uncorrectable;
  }

  /** The words below `i` are decoded, none was beyond repair, and `any` says
      whether one needed it. */
  ghost predicate HealedSoFar(cols: seq<byte>, before: seq<byte>, parity: seq<byte>, i: nat, any: bool, now: seq<byte>)
    requires |cols| == DATA_BITS && i <= |parity|
  {
    && now == Healed(cols, before, parity, i)
    && (forall w :: 0 <= w < i ==> Decoded(cols, before, parity, w).0 != Uncorrectable)
    && (any <==> exists w :: 0 <= w < i && Decoded(cols, before, parity, w).0 == Corrected)
  }

  lemma HealingStarts(cols: seq<byte>, before: seq<byte>, parity: seq<byte>)
    requires |cols| == DATA_BITS
    ensures HealedSoFar(cols, before, parity, 0, false, before)
  {
    hide Decoded;
  }

  lemma HealingAdvances(cols: seq<byte>, before: seq<byte>, parity: seq<byte>, i: nat, any: bool, now: seq<byte>)
    requires |cols| == DATA_BITS && |parity| >= ParityLength(|before|) && 8 * i < |before|
    requires HealedSoFar(cols, before, parity, i, any, now)
    ensures
      var decoded := Decode(cols, Stored(Word(now, i), parity[i]));
      var next := Patched(now, i, decoded.1);
      if decoded.0 == Uncorrectable then Judged(cols, before, parity, Uncorrectable, next)
      else HealedSoFar(cols, before, parity, i + 1, any || decoded.0 == Corrected, next)
  {
    hide Decode, Healed, Patched, Word;
    HealedStep(cols, before, parity, i);
    assert Decoded(cols, before, parity, i) == Decode(cols, Stored(Word(now, i), parity[i]));
  }

  lemma HealingEnds(cols: seq<byte>, before: seq<byte>, parity: seq<byte>, any: bool, now: seq<byte>)
    requires |cols| == DATA_BITS && |parity| >= ParityLength(|before|)
    requires HealedSoFar(cols, before, parity, ParityLength(|before|), any, now)
    ensures Judged(cols, before, parity, if any then Corrected else Clean, now)
  {
    hide Decoded, Healed;
  }

  method LoadWord(payload: array<byte>, i: nat) returns (word: array<byte>)
    requires 8 * i < payload.Length
    ensures fresh(word) && word[..] == Word(payload[..], i)
  {
    word := new byte[8];
    var len := if payload.Length - 8 * i < 8 then payload.Length - 8 * i else 8;
    forall k | 0 <= k < 8 {
      word[k] := if k < len then payload[8 * i + k] else 0;
    }
  }

  method StoreWord(payload: array<byte>, i: nat, word: array<byte>)
    requires 8 * i < payload.Length && word.Length == 8 && word != payload
    modifies payload
    ensures payload[..] == Patched(old(payload[..]), i, word[..])
  {
    var len := if payload.Length - 8 * i < 8 then payload.Length - 8 * i else 8;
    forall k | 0 <= k < len {
      payload[8 * i + k] := word[k];
    }
  }

  method FlipByte(word: array<byte>, bit: nat)
    requires word.Length == 8 && bit < DATA_BITS
    modifies word
    ensures word[..] == FlipData(old(word[..]), bit)
  {
    word[bit / 8] := Xor(word[bit / 8], Bit(bit % 8));
  }

  class Codec {
    const cols: seq<byte>
    const tables: seq<seq<byte>>

    ghost predicate Valid() {
      DataColumns(cols) && AreTables(tables, cols, 8)
    }

    constructor ()
      ensures Valid()
    {
      var c := BuildDataColumns();
      var t := BuildTables(c);
      cols, tables := c, t;
    }

    /** Corrects `word` in place when one flip explains the syndrome. */
    method DecodeWord(word: array<byte>, parity: byte) returns (outcome: Outcome)
      requires Valid() && word.Length == 8
      modifies word
      ensures (outcome, word[..]) == Decode(cols, Stored(old(word[..]), parity))
    {
      hide Ascending, IsTable, Check, Xor, Odd, PowerOfTwo, FlipData, Locate;
      ghost var s := Stored(word[..], parity);
      var check := CheckByte(tables, word[..], cols);
      var syndrome := Xor(parity, check);
      if syndrome == 0 {
        return Clean;
      }
      if PowerOfTwo(syndrome) {
        PowerIsCheckColumn(cols, s);
        return Corrected;
      }
      if Odd(syndrome) {
        var bit := 0;
        while bit < DATA_BITS
          invariant bit <= DATA_BITS && word[..] == old(word[..])
          invariant syndrome !in cols[..bit]
        {
          if cols[bit] == syndrome {
            LocateColumn(cols, bit);
            FlipByte(word, bit);
            return Corrected;
          }
          bit := bit + 1;
        }
      }
      NoColumn(cols, syndrome);
      return Uncorrectable;
    }

    /** Decodes word `i` of the payload, writing back only its real bytes. */
    method HealWord(payload: array<byte>, i: nat, parity: byte) returns (outcome: Outcome)
      requires Valid() && 8 * i < payload.Length
      modifies payload
      ensures
        var decoded := Decode(cols, Stored(Word(old(payload[..]), i), parity));
        outcome == decoded.0 && payload[..] == Patched(old(payload[..]), i, decoded.1)
    {
      hide Decode, Ascending, IsTable, Patched, Word;
      var word := LoadWord(payload, i);
      outcome := DecodeWord(word, parity);
      if outcome == Corrected {
        StoreWord(payload, i, word);
      } else {
        CleanKeepsWord(cols, Stored(Word(payload[..], i), parity));
        PatchedWithSame(payload[..], i);
      }
    }

    method EncodeBlockParity(payload: seq<byte>) returns (parity: seq<byte>)
      requires Valid()
      ensures TrailerOf(cols, payload, parity)
    {
      hide Check, Ascending, IsTable;
      parity := [];
      while 8 * |parity| < |payload|
        invariant |parity| <= ParityLength(|payload|)
        invariant forall i :: 0 <= i < |parity| ==> parity[i] == Check(cols, Word(payload, i))
      {
        var check := CheckByte(tables, Word(payload, |parity|), cols);
        parity := parity + [check];
      }
    }

    /** Heals the payload in place, stopping at the first word beyond repair. */
    method TryCorrectBlock(payload: array<byte>, parity: seq<byte>) returns (outcome: Outcome)
      requires Valid()
      modifies payload
      ensures |parity| < ParityLength(payload.Length) ==> outcome == Uncorrectable && payload[..] == old(payload[..])
      ensures |parity| >= ParityLength(payload.Length) ==>
                Judged(cols, old(payload[..]), parity, outcome, payload[..])
    {
      hide Decode, Ascending, IsTable, Patched, Healed, HealedSoFar, Judged, Word;
      if |parity| < ParityLength(payload.Length) {
        return Uncorrectable;
      }
      ghost var before := payload[..];
      var anyCorrected := false;
      var i := 0;
      HealingStarts(cols, before, parity);
      while 8 * i < payload.Length
        invariant i <= ParityLength(payload.Length)
        invariant HealedSoFar(cols, before, parity, i, anyCorrected, payload[..])
      {
        HealingAdvances(cols, before, parity, i, anyCorrected, payload[..]);
        var o := HealWord(payload, i, parity[i]);
        if o == Uncorrectable {
          return Uncorrectable;
        }
        if o == Corrected {
          anyCorrected := true;
        }
        i := i + 1;
      }
      outcome := if anyCorrected then Corrected else Clean;
      HealingEnds(cols, before, parity, anyCorrected, payload[..]);
    }
  }
}
