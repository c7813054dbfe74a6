/** src/rate_limiter.rs: the token bucket, with its integer clamps written out. */
module RateLimiters {
  import opened Arithmetic

  const I64_MAX: int := 0x7FFF_FFFF_FFFF_FFFF
  const I64_MIN: int := -0x8000_0000_0000_0000
  const U128_MAX: int := 0xFFFF_FFFF_FFFF_FFFF_FFFF_FFFF_FFFF_FFFF

  function AtMost(x: int, limit: int): int {
    if x > limit then limit else x
  }

  function AtLeast(x: int, limit: int): int {
    if x < limit then limit else x
  }

  datatype Bucket = Bucket(available: int, lastRefill: nat)

  /** A request for `bytes` at the monotonic time `now`, in nanoseconds. */
  datatype Request = Request(bytes: nat, now: nat)

  /** Bytes earned in `elapsed` nanoseconds. */
  function Accrued(elapsed: nat, rate: nat): (r: nat) {
    AtMost(AtMost(elapsed * rate, U128_MAX) / NANOS_PER_SEC, I64_MAX)
  }

  /** Nanoseconds in which `debt` bytes are earned. */
  function Repayment(debt: nat, rate: nat): (r: nat)
    requires rate > 0
  {
    AtMost(AtMost(debt * NANOS_PER_SEC, U128_MAX) / rate, U64_MAX)
  }

  /** What accrued since the last refill is added, up to one burst. */
  function Refilled(b: Bucket, rate: nat, burst: nat, now: nat): Bucket {
    if now <= b.lastRefill then b
    else
      var refill := Accrued(now - b.lastRefill, rate);
      Bucket(AtMost(AtMost(b.available + refill, I64_MAX), AtMost(burst, I64_MAX)), now)
  }

  function Debited(b: Bucket, bytes: nat): Bucket {
    b.(available := AtLeast(b.available - AtMost(bytes, I64_MAX), I64_MIN))
  }

  /** How long the refill rate takes to repay the debt. */
  function Wait(b: Bucket, rate: nat): nat
    requires rate > 0
  {
    if b.available >= 0 then 0 else Repayment(-b.available, rate)
  }

  function Served(b: Bucket, rate: nat, burst: nat, request: Request): Bucket {
    Debited(Refilled(b, rate, burst, request.now), request.bytes)
  }

  class RateLimiter {
    const rate: nat
    const burst: nat
    var bucket: Bucket

    constructor (rateBytesPerSec: nat)
      ensures rate == burst == rateBytesPerSec
      ensures bucket == Full(rate)
    {
      rate, burst := rateBytesPerSec, rateBytesPerSec;
      bucket := Bucket(AtMost(rateBytesPerSec, I64_MAX), 0);
    }

    method AcquireWait(request: Request) returns (wait: nat)
      modifies this
      ensures rate == 0 ==> wait == 0 && bucket == old(bucket)
      ensures rate > 0 ==> bucket == Served(old(bucket), rate, burst, request) && wait == Wait(bucket, rate)
    {
      hide Accrued, Repayment;
      if rate == 0 {
        return 0;
      }
      var elapsed := if request.now > bucket.lastRefill then request.now - bucket.lastRefill else 0;
      if elapsed > 0 {
        var refilled := Accrued(elapsed, rate);
        bucket := bucket.(available := AtMost(bucket.available + refilled, I64_MAX));
        var burstI64 := AtMost(burst, I64_MAX);
        if bucket.available > burstI64 {
          bucket := bucket.(available := burstI64);
        }
        bucket := bucket.(lastRefill := request.now);
      }
      var debit := AtMost(request.bytes, I64_MAX);
      bucket := bucket.(available := AtLeast(bucket.available - debit, I64_MIN));
      if bucket.available >= 0 {
        return 0;
      }
      return Repayment(-bucket.available, rate);
    }
  }

  // --- runs ---

  function Full(rate: nat): Bucket {
    Bucket(AtMost(rate, I64_MAX), 0)
  }

  /** A limiter of the given rate after serving `run`. */
  function After(rate: nat, run: seq<Request>): Bucket {
    if run == [] then Full(rate)
    else Served(After(rate, run[..|run| - 1]), rate, rate, run[|run| - 1])
  }

  /** When request `j` of the run may go ahead. */
  function Release(rate: nat, run: seq<Request>, j: nat): nat
    requires rate > 0 && j < |run|
  {
    run[j].now + Wait(After(rate, run[..j + 1]), rate)
  }

  function Bytes(run: seq<Request>): nat {
    if run == [] then 0 else Bytes(run[..|run| - 1]) + run[|run| - 1].bytes
  }

  /** No request is stamped earlier than the one before it. */
  ghost predicate ClockRuns(run: seq<Request>) {
    |run| > 1 ==> ClockRuns(run[..|run| - 1]) && run[|run| - 2].now <= run[|run| - 1].now
  }

  /** The clamps that favour the caller: on the debit, on the debt and on the wait.
      The others only make the limiter stricter. */
  ghost predicate Unclamped(b: Bucket, rate: nat, request: Request)
    requires rate > 0
  {
    var available := Refilled(b, rate, rate, request.now).available;
    && request.bytes <= I64_MAX
    && available - request.bytes >= I64_MIN
    && (request.bytes - available) * NANOS_PER_SEC / rate <= U64_MAX
  }

  ghost predicate NeverClamped(rate: nat, run: seq<Request>)
    requires rate > 0
  {
    run != [] ==>
      NeverClamped(rate, run[..|run| - 1]) && Unclamped(After(rate, run[..|run| - 1]), rate, run[|run| - 1])
  }

  /** Between `start` and the last refill, no more than a burst and the accrual since
      `start` was handed out or is left. */
  ghost predicate Paid(b: Bucket, rate: nat, start: nat, granted: nat) {
    b.lastRefill >= start
    && (b.available + granted) * NANOS_PER_SEC <= rate * NANOS_PER_SEC + rate * (b.lastRefill - start)
  }

  lemma RefillPays(b: Bucket, rate: nat, now: nat, start: nat, granted: nat)
    requires Paid(b, rate, start, granted)
    ensures Paid(Refilled(b, rate, rate, now), rate, start, granted)
  {
    if now > b.lastRefill {
      var elapsed := now - b.lastRefill;
      assert Accrued(elapsed, rate) * NANOS_PER_SEC <= elapsed * rate;
      assert rate * (now - start) == rate * (b.lastRefill - start) + elapsed * rate;
    }
  }

  lemma RefillIsBurst(b: Bucket, rate: nat, now: nat)
    requires now > b.lastRefill || b.available <= rate
    ensures Refilled(b, rate, rate, now).available <= rate
  {
  }

  lemma DebitPays(b: Bucket, rate: nat, bytes: nat, start: nat, granted: nat)
    requires Paid(b, rate, start, granted)
    requires bytes <= I64_MAX && b.available - bytes >= I64_MIN
    ensures Paid(Debited(b, bytes), rate, start, granted + bytes)
  {
  }

  lemma {:induction false} NeverAboveBurst(rate: nat, run: seq<Request>)
    ensures After(rate, run).available <= rate
    ensures run != [] && ClockRuns(run) ==> After(rate, run).lastRefill == run[|run| - 1].now
    ensures run == [] ==> After(rate, run).lastRefill == 0
  {
    if run != [] {
      hide Accrued;
      NeverAboveBurst(rate, run[..|run| - 1]);
      RefillIsBurst(After(rate, run[..|run| - 1]), rate, run[|run| - 1].now);
    }
  }

  lemma WindowStep(before: Bucket, rate: nat, request: Request, start: nat, granted: nat)
    requires rate > 0 && Unclamped(before, rate, request)
    requires Paid(Refilled(before, rate, rate, request.now), rate, start, granted)
    ensures Paid(Served(before, rate, rate, request), rate, start, granted + request.bytes)
  {
    hide Refilled, Debited, Paid, Unclamped;
    UnclampedDebit(before, rate, request);
    DebitPays(Refilled(before, rate, rate, request.now), rate, request.bytes, start, granted);
  }

  lemma BytesSplit(run: seq<Request>, i: nat)
    requires i < |run|
    ensures Bytes(run[i..]) == Bytes(run[..|run| - 1][i..]) + run[|run| - 1].bytes
  {
    assert run[i..][..|run| - i - 1] == run[..|run| - 1][i..];
  }

  /** The window invariant, one request at a time. */
  lemma {:induction false} WindowPaid(rate: nat, run: seq<Request>, i: nat)
    requires rate > 0 && i < |run| && ClockRuns(run) && NeverClamped(rate, run)
    ensures Paid(After(rate, run), rate, run[i].now, Bytes(run[i..]))
  {
    hide Paid, Unclamped, Served, Bytes, Refilled;
    var front, last := run[..|run| - 1], run[|run| - 1];
    var before := After(rate, front);
    BytesSplit(run, i);
    if i == |run| - 1 {
      WindowOpens(rate, run);
      assert front[i..] == [];
      NoBytes();
    } else {
      WindowPaid(rate, front, i);
      RefillPays(before, rate, last.now, run[i].now, Bytes(front[i..]));
    }
    WindowStep(before, rate, last, run[i].now, Bytes(front[i..]));
  }

  lemma NoBytes()
    ensures Bytes([]) == 0
  {
  }

  lemma UnclampedDebit(b: Bucket, rate: nat, request: Request)
    requires rate > 0 && Unclamped(b, rate, request)
    ensures request.bytes <= I64_MAX && Refilled(b, rate, rate, request.now).available - request.bytes >= I64_MIN
  {
    hide Refilled;
  }

  lemma PaidAtFirst(b: Bucket, rate: nat)
    requires b.available <= rate
    ensures Paid(b, rate, b.lastRefill, 0)
  {
    assert rate * (b.lastRefill - b.lastRefill) == 0;
  }

  lemma RefillTime(b: Bucket, rate: nat, now: nat)
    requires b.lastRefill <= now
    ensures Refilled(b, rate, rate, now).lastRefill == now
  {
  }

  lemma WindowOpens(rate: nat, run: seq<Request>)
    requires run != [] && ClockRuns(run)
    ensures Paid(Refilled(After(rate, run[..|run| - 1]), rate, rate, run[|run| - 1].now), rate, run[|run| - 1].now, 0)
  {
    hide Refilled, Paid, After;
    var front, last := run[..|run| - 1], run[|run| - 1];
    NeverAboveBurst(rate, front);
    RefillTime(After(rate, front), rate, last.now);
    RefillIsBurst(After(rate, front), rate, last.now);
    PaidAtFirst(Refilled(After(rate, front), rate, rate, last.now), rate);
  }

  lemma WaitRepays(b: Bucket, rate: nat, start: nat, granted: nat)
    requires rate > 0 && Paid(b, rate, start, granted)
    requires b.available >= I64_MIN && -b.available * NANOS_PER_SEC / rate <= U64_MAX
    ensures granted * NANOS_PER_SEC <= rate * NANOS_PER_SEC + rate * (b.lastRefill + Wait(b, rate) - start + 1)
  {
    if b.available < 0 {
      var debt, wait := -b.available * NANOS_PER_SEC, Wait(b, rate);
      assert debt == (debt / rate) * rate + debt % rate;
      assert rate * (b.lastRefill + wait - start + 1) == rate * (b.lastRefill - start) + wait * rate + rate;
    } else {
      assert rate * (b.lastRefill - start + 1) == rate * (b.lastRefill - start) + rate;
    }
  }

  /** In any window of any run, from one request being made to another being let
      go, at most a burst and what the rate yields in that time is granted. The
      odd nanosecond pays for the wait being rounded down. */
  lemma GrantsAreBounded(rate: nat, run: seq<Request>, i: nat, j: nat)
    requires rate > 0 && i <= j < |run| && ClockRuns(run) && NeverClamped(rate, run)
    ensures Bytes(run[i..j + 1]) * NANOS_PER_SEC <=
              rate * NANOS_PER_SEC + rate * (Release(rate, run, j) - run[i].now + 1)
  {
    hide ClockRuns, NeverClamped, After, Wait, Bytes;
    var upto := run[..j + 1];
    PrefixRuns(rate, run, j + 1);
    assert upto[i..] == run[i..j + 1] && upto[..j + 1] == upto;
    GrantedAtEnd(rate, upto, i);
  }

  lemma {:induction false} PrefixRuns(rate: nat, run: seq<Request>, k: nat)
    requires rate > 0 && k <= |run| && ClockRuns(run) && NeverClamped(rate, run)
    ensures ClockRuns(run[..k]) && NeverClamped(rate, run[..k])
    decreases |run|
  {
    hide Unclamped, After;
    if k < |run| {
      PrefixRuns(rate, run[..|run| - 1], k);
      assert run[..|run| - 1][..k] == run[..k];
    } else {
      assert run[..k] == run;
    }
  }

  lemma GrantedAtEnd(rate: nat, run: seq<Request>, i: nat)
    requires rate > 0 && i < |run| && ClockRuns(run) && NeverClamped(rate, run)
    ensures Bytes(run[i..]) * NANOS_PER_SEC <=
              rate * NANOS_PER_SEC + rate * (run[|run| - 1].now + Wait(After(rate, run), rate) - run[i].now + 1)
  {
    hide Paid, Unclamped, Wait, Bytes, Served;
    var front, last := run[..|run| - 1], run[|run| - 1];
    WindowPaid(rate, run, i);
    NeverAboveBurst(rate, run);
    UnclampedWait(After(rate, front), rate, last);
    WaitRepays(After(rate, run), rate, run[i].now, Bytes(run[i..]));
  }

  lemma UnclampedWait(b: Bucket, rate: nat, request: Request)
    requires rate > 0 && Unclamped(b, rate, request)
    ensures var after := Served(b, rate, rate, request).available;
            after >= I64_MIN && -after * NANOS_PER_SEC / rate <= U64_MAX
  {
    hide Refilled;
  }

  /** From the start: the total released by any time is within one burst and the
      rate's yield up to then. */
  lemma TotalIsBounded(rate: nat, run: seq<Request>, j: nat)
    requires rate > 0 && j < |run| && ClockRuns(run) && NeverClamped(rate, run)
    ensures Bytes(run[..j + 1]) * NANOS_PER_SEC <= rate * NANOS_PER_SEC + rate * (Release(rate, run, j) + 1)
  {
    hide Release, Bytes;
    GrantsAreBounded(rate, run, 0, j);
    assert run[0..j + 1] == run[..j + 1];
    MulMono(Release(rate, run, j) - run[0].now + 1, Release(rate, run, j) + 1, rate);
  }

  // --- what a caller can check beforehand ---

  /** The debt never exceeds what was asked for. */
  lemma {:induction false} DebtBounded(rate: nat, run: seq<Request>)
    requires Bytes(run) <= I64_MAX
    ensures After(rate, run).available + Bytes(run) >= 0
  {
    if run != [] {
      hide Accrued;
      DebtBounded(rate, run[..|run| - 1]);
    }
  }

  /** A run asking for less than 2^63 bytes, and for no more than the rate yields in
      2^64 nanoseconds, meets none of the clamps. */
  lemma {:induction false} SmallRunsAreUnclamped(rate: nat, run: seq<Request>)
    requires rate > 0 && Bytes(run) <= I64_MAX && Bytes(run) * NANOS_PER_SEC <= U64_MAX * rate
    ensures NeverClamped(rate, run)
  {
    hide Unclamped, After;
    if run != [] {
      SmallRunsAreUnclamped(rate, run[..|run| - 1]);
      DebtBounded(rate, run[..|run| - 1]);
      SmallIsUnclamped(After(rate, run[..|run| - 1]), rate, run[|run| - 1], Bytes(run));
    }
  }

  lemma SmallIsUnclamped(b: Bucket, rate: nat, request: Request, total: nat)
    requires rate > 0 && total <= I64_MAX && total * NANOS_PER_SEC <= U64_MAX * rate
    requires request.bytes <= total && request.bytes - b.available <= total
    ensures Unclamped(b, rate, request)
  {
    var available := Refilled(b, rate, rate, request.now).available;
    assert request.bytes - available <= total by {
      hide Accrued;
    }
    hide Refilled;
    QuotientBound((request.bytes - available) * NANOS_PER_SEC, U64_MAX, rate);
  }

  // --- exactly when one request is let go too early ---

  /** The wait an unclamped bucket would ask for. */
  function Ideal(debt: int, rate: nat): (r: nat)
    requires rate > 0
  {
    if debt <= 0 then 0
    else
      DivMono(0, debt * NANOS_PER_SEC, rate);
      debt * NANOS_PER_SEC / rate
  }

  /** The most debt the bucket can show for a request that finds `available` bytes. */
  function DebtLimit(available: int): int {
    AtMost(I64_MAX - available, -I64_MIN)
  }

  lemma IdealMono(a: int, b: int, rate: nat)
    requires rate > 0 && a <= b
    ensures Ideal(a, rate) <= Ideal(b, rate)
  {
    if 0 < a {
      MulMono(a, b, NANOS_PER_SEC);
      DivMono(a * NANOS_PER_SEC, b * NANOS_PER_SEC, rate);
    }
  }

  lemma IdealAtMost(a: int, b: int, rate: nat)
    requires rate > 0
    ensures Ideal(AtMost(a, b), rate) == AtMost(Ideal(a, rate), Ideal(b, rate))
  {
    hide Ideal;
    if a <= b {
      IdealMono(a, b, rate);
    } else {
      IdealMono(b, a, rate);
    }
  }

  /** The debt the bucket shows is the request's, up to the limit. */
  lemma ShownDebt(b: Bucket, bytes: nat)
    requires I64_MIN <= b.available <= I64_MAX
    ensures -Debited(b, bytes).available == AtMost(bytes - b.available, DebtLimit(b.available))
    ensures -Debited(b, bytes).available <= -I64_MIN
  {
  }

  lemma RepaymentIsIdeal(debt: nat, rate: nat)
    requires rate > 0 && 0 < debt <= -I64_MIN
    ensures Repayment(debt, rate) == AtMost(Ideal(debt, rate), U64_MAX)
  {
    MulMono(debt, -I64_MIN, NANOS_PER_SEC);
  }

  lemma RefillInRange(b: Bucket, rate: nat, now: nat)
    requires I64_MIN <= b.available <= I64_MAX
    ensures I64_MIN <= Refilled(b, rate, rate, now).available <= I64_MAX
  {
    hide Accrued;
  }

  /** The wait for one request, clamps and all. */
  lemma WaitExact(b: Bucket, rate: nat, request: Request)
    requires rate > 0 && I64_MIN <= b.available <= I64_MAX
    ensures
      var available := Refilled(b, rate, rate, request.now).available;
      Wait(Served(b, rate, rate, request), rate) ==
        AtMost(AtMost(Ideal(request.bytes - available, rate), Ideal(DebtLimit(available), rate)), U64_MAX)
  {
    hide Refilled, Debited, Repayment, Ideal;
    var refilled := Refilled(b, rate, rate, request.now);
    RefillInRange(b, rate, request.now);
    ShownDebt(refilled, request.bytes);
    var shown := -Debited(refilled, request.bytes).available;
    IdealAtMost(request.bytes - refilled.available, DebtLimit(refilled.available), rate);
    if shown > 0 {
      RepaymentIsIdeal(shown, rate);
    } else {
      NoDebtNoWait(shown, rate);
    }
  }

  lemma NoDebtNoWait(debt: int, rate: nat)
    requires rate > 0 && debt <= 0
    ensures Ideal(debt, rate) == 0
  {
  }

  /** A request is let go before its debt is repaid if and only if the debt is this
      large: more than the bucket can show, or than can be waited for. */
  lemma WaitFallsShort(b: Bucket, rate: nat, request: Request)
    requires rate > 0 && I64_MIN <= b.available <= I64_MAX
    ensures
      var available := Refilled(b, rate, rate, request.now).available;
      var debt, most := request.bytes - available, AtMost(Ideal(DebtLimit(available), rate), U64_MAX);
      Wait(Served(b, rate, rate, request), rate) < Ideal(debt, rate) <==> debt * NANOS_PER_SEC >= rate * (most + 1)
  {
    hide Refilled, Wait, Served, DebtLimit;
    WaitExact(b, rate, request);
    var available := Refilled(b, rate, rate, request.now).available;
    var debt, most := request.bytes - available, AtMost(Ideal(DebtLimit(available), rate), U64_MAX);
    IdealAbove(debt, rate, most);
  }

  lemma IdealAbove(debt: int, rate: nat, most: nat)
    requires rate > 0
    ensures Ideal(debt, rate) > most <==> debt * NANOS_PER_SEC >= rate * (most + 1)
  {
    MulMono(1, most + 1, rate);
    var total := debt * NANOS_PER_SEC;
    if debt > 0 {
      assert total == (total / rate) * rate + total % rate;
      if total / rate > most {
        MulMono(most + 1, total / rate, rate);
      } else {
        MulMono(total / rate, most, rate);
      }
    }
  }

  // --- time earns what it should ---

  /** A request that meets no clamp: it finds what was left and what the time since
      earned, rounded down, up to one burst. It waits if and only if the rate takes a
      nanosecond or more to earn what it asks for beyond that, and then that long. */
  lemma ServedExactly(b: Bucket, rate: nat, burst: nat, request: Request)
    requires rate > 0 && I64_MIN <= b.available <= burst <= I64_MAX && b.lastRefill <= request.now
    requires (request.now - b.lastRefill) * rate < (I64_MAX + 1) * NANOS_PER_SEC
    requires request.bytes <= I64_MAX
    ensures
      var earned := (request.now - b.lastRefill) * rate / 1_000_000_000;
      var found := if b.available + earned < burst then b.available + earned else burst;
      var after := Served(b, rate, burst, request);
      found - request.bytes >= I64_MIN ==>
        && after == Bucket(found - request.bytes, request.now)
        && (Wait(after, rate) == 0 <==> (request.bytes - found) * 1_000_000_000 < rate)
        && (request.bytes > found && (request.bytes - found) * 1_000_000_000 / rate <= U64_MAX ==>
              Wait(after, rate) == (request.bytes - found) * 1_000_000_000 / rate)
  {
    AccruedExactly(request.now - b.lastRefill, rate);
    hide Accrued, Repayment;
    var found := Refilled(b, rate, burst, request.now).available;
    var debt := request.bytes - found;
    if 0 < debt <= -I64_MIN {
      RepaidExactly(debt, rate);
      NoneIfSmall(debt * NANOS_PER_SEC, rate);
    }
  }

  lemma NoneIfSmall(a: nat, d: nat)
    requires d > 0
    ensures a / d == 0 <==> a < d
  {
    if a >= d {
      DivMono(d, a, d);
    }
  }

  lemma AccruedExactly(elapsed: nat, rate: nat)
    requires elapsed * rate < (I64_MAX + 1) * NANOS_PER_SEC
    ensures Accrued(elapsed, rate) == elapsed * rate / NANOS_PER_SEC
    ensures elapsed == 0 ==> Accrued(elapsed, rate) == 0
  {
  }

  lemma RepaidExactly(debt: nat, rate: nat)
    requires rate > 0 && 0 < debt <= -I64_MIN
    ensures Repayment(debt, rate) == AtMost(debt * NANOS_PER_SEC / rate, U64_MAX)
  {
    MulMono(debt, -I64_MIN, NANOS_PER_SEC);
  }

  /** At the end of the run no less is left than a burst and what the rate yielded
      since request `i`, less what was asked for since, and less than a byte for each
      refill's rounding. */
  ghost predicate Earned(b: Bucket, rate: nat, run: seq<Request>, i: nat)
    requires i < |run|
  {
    b.available * NANOS_PER_SEC + Bytes(run[i..]) * NANOS_PER_SEC + (|run| - 1 - i) * NANOS_PER_SEC >=
    rate * NANOS_PER_SEC + rate * (run[|run| - 1].now - run[i].now)
  }

  /** The clock stays within what the accrual can count. */
  ghost predicate Countable(rate: nat, run: seq<Request>) {
    rate <= I64_MAX && forall i :: 0 <= i < |run| ==> run[i].now * rate < (I64_MAX + 1) * NANOS_PER_SEC
  }

  lemma RefillEarns(b: Bucket, rate: nat, now: nat)
    requires b.lastRefill <= now && rate <= I64_MAX && b.available <= rate && now * rate < (I64_MAX + 1) * NANOS_PER_SEC
    ensures
      var available := Refilled(b, rate, rate, now).available;
      || available == rate
      || available * NANOS_PER_SEC + NANOS_PER_SEC >= b.available * NANOS_PER_SEC + rate * (now - b.lastRefill)
  {
    var elapsed := now - b.lastRefill;
    MulMono(elapsed, now, rate);
    AccruedExactly(elapsed, rate);
    hide Accrued;
    var total := elapsed * rate;
    assert total == (total / NANOS_PER_SEC) * NANOS_PER_SEC + total % NANOS_PER_SEC;
    assert rate * elapsed == total;
  }

  lemma DebitLeaves(b: Bucket, bytes: nat)
    ensures Debited(b, bytes).available >= b.available - bytes
  {
  }

  lemma FirstRefill(rate: nat, now: nat)
    requires rate <= I64_MAX
    ensures Refilled(Full(rate), rate, rate, now).available == rate
  {
    hide Accrued;
  }

  /** Some window shows why no more is left. */
  lemma {:induction false} EarnedSomewhere(rate: nat, run: seq<Request>) returns (i: nat)
    requires rate > 0 && run != [] && ClockRuns(run) && Countable(rate, run)
    ensures i < |run| && Earned(After(rate, run), rate, run, i)
  {
    hide Refilled, Debited, Earned, Bytes;
    var front, last := run[..|run| - 1], run[|run| - 1];
    var before := After(rate, front);
    var refilled := Refilled(before, rate, rate, last.now);
    NeverAboveBurst(rate, front);
    DebitLeaves(refilled, last.bytes);
    if front == [] || refilled.available == rate {
      if front == [] {
        FirstRefill(rate, last.now);
      }
      i := |run| - 1;
      EarnedAlone(After(rate, run), rate, run);
    } else {
      i := EarnedSomewhere(rate, front);
      RefillEarns(before, rate, last.now);
      EarnedOn(before, refilled, After(rate, run), rate, run, i);
    }
  }

  lemma EarnedAlone(b: Bucket, rate: nat, run: seq<Request>)
    requires run != [] && b.available >= rate - run[|run| - 1].bytes
    ensures Earned(b, rate, run, |run| - 1)
  {
    var last := run[|run| - 1..];
    assert last == [run[|run| - 1]] && last[..0] == [];
    assert Bytes(last) == Bytes(last[..0]) + run[|run| - 1].bytes;
    assert rate * (run[|run| - 1].now - run[|run| - 1].now) == 0;
  }

  lemma EarnedOn(before: Bucket, refilled: Bucket, after: Bucket, rate: nat, run: seq<Request>, i: nat)
    requires |run| > 1 && i < |run| - 1 && Earned(before, rate, run[..|run| - 1], i)
    requires before.lastRefill == run[|run| - 2].now
    requires refilled.available * NANOS_PER_SEC + NANOS_PER_SEC >=
             before.available * NANOS_PER_SEC + rate * (run[|run| - 1].now - before.lastRefill)
    requires after.available >= refilled.available - run[|run| - 1].bytes
    ensures Earned(after, rate, run, i)
  {
    hide Bytes;
    BytesSplit(run, i);
    var t0: int, t1: int, t2: int := run[i].now, run[|run| - 2].now, run[|run| - 1].now;
    assert rate * (t2 - t0) == rate * (t1 - t0) + rate * (t2 - t1);
  }

  /** A request is held only for what was asked: if it waits, then in some window up to
      it the requests exceeded a burst and the rate's yield by what the wait earns, but
      for less than a byte of rounding at each refill. */
  lemma WaitsAreEarned(rate: nat, run: seq<Request>) returns (i: nat)
    requires rate > 0 && run != [] && ClockRuns(run) && Countable(rate, run)
    ensures i < |run|
    ensures
      var last := |run| - 1;
      Release(rate, run, last) > run[last].now ==>
        rate * NANOS_PER_SEC + rate * (Release(rate, run, last) - run[i].now) <=
        (Bytes(run[i..]) + last - i) * NANOS_PER_SEC
  {
    hide Earned, After, Wait;
    i := EarnedSomewhere(rate, run);
    assert run[..|run|] == run;
    WaitIsEarned(After(rate, run), rate, run, i);
  }

  lemma WaitIsEarned(b: Bucket, rate: nat, run: seq<Request>, i: nat)
    requires rate > 0 && i < |run| && Earned(b, rate, run, i)
    ensures Wait(b, rate) > 0 ==>
      rate * NANOS_PER_SEC + rate * (run[|run| - 1].now + Wait(b, rate) - run[i].now) <=
      (Bytes(run[i..]) + |run| - 1 - i) * NANOS_PER_SEC
  {
    hide Bytes;
    if Wait(b, rate) > 0 {
      RepaymentAtMost(-b.available, rate);
      var t0, t1, wait := run[i].now, run[|run| - 1].now, Wait(b, rate);
      assert rate * (t1 + wait - t0) == rate * (t1 - t0) + wait * rate;
    }
  }

  lemma RepaymentAtMost(debt: nat, rate: nat)
    requires rate > 0
    ensures Repayment(debt, rate) * rate <= debt * NANOS_PER_SEC
  {
    var total := debt * NANOS_PER_SEC;
    var counted := AtMost(total, U128_MAX);
    assert counted == (counted / rate) * rate + counted % rate;
    MulMono(Repayment(debt, rate), counted / rate, rate);
  }

  /** The clamps do matter: at one byte a second, a first request for 2^63 bytes is
      let go after 2^64 nanoseconds, long before they are earned. */
  lemma ClampBreaksBound()
    ensures var run := [Request(0x8000_0000_0000_0000, 0)];
            && ClockRuns(run) && !NeverClamped(1, run) && Release(1, run, 0) == U64_MAX
            && Bytes(run) * NANOS_PER_SEC > 1 * NANOS_PER_SEC + 1 * (Release(1, run, 0) + 1)
  {
    var run := [Request(0x8000_0000_0000_0000, 0)];
    assert run[..0] == [] && run[..1] == run;
    assert After(1, []) == Bucket(1, 0);
    assert After(1, run) == Bucket(1 - I64_MAX, 0);
    assert !Unclamped(After(1, run[..0]), 1, run[0]);
  }
}
