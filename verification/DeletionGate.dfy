/**
 src/deletion_pause.rs: the pause counter, the deferred queue and its lock, as
 atomic steps of any number of threads.

 A guard stands for the thread that will drop it. `pushed`, `taken`, `refused` and the
 guards noted in them only record what happened and do not steer any step.
 */
module DeletionGate {
  type Guard = nat

  datatype Action = Remove | Punch(extents: seq<(nat, nat)>)

  /** `file` stands for the inode behind a queued path. */
  datatype Job = Job(file: nat, action: Action)

  /** A job with the guards that were alive when its fate was decided. */
  datatype Decided = Decided(job: Job, alive: set<Guard>)

  /** Who holds the queue lock, and how far they have come. */
  datatype Holder =
    | Free
    | EnqueueRecheck(job: Job)
    | EnqueuePush(job: Job)
    | DropRecheck(guard: Guard)
    | DropTake(guard: Guard)

  /** `active` is the atomic counter, `live` the guards it counts. `enqueuing` have
      read a positive counter and `dropping` have taken it from one to zero; both
      are waiting for the lock. */
  datatype Gate = Gate(active: int, live: set<Guard>, nextGuard: nat, queue: seq<Decided>, holder: Holder,
                       enqueuing: seq<Job>, dropping: set<Guard>,
                       pushed: seq<Decided>, taken: seq<Decided>, refused: seq<Decided>)

  const INITIAL := Gate(0, {}, 0, [], Free, [], {}, [], [], [])

  datatype Step =
    | Acquire
    | TryEnqueue(job: Job)
    | LockEnqueue(at: nat)
    | RecheckEnqueue
    | Push
    | Drop(guard: Guard)
    | LockDrop(guard: Guard)
    | RecheckDrop
    | Take

  predicate Enabled(g: Gate, step: Step) {
    match step
    case Acquire => true
    case TryEnqueue(_) => true
    case LockEnqueue(at) => g.holder.Free? && at < |g.enqueuing|
    case RecheckEnqueue => g.holder.EnqueueRecheck?
    case Push => g.holder.EnqueuePush?
    case Drop(guard) => guard in g.live
    case LockDrop(guard) => g.holder.Free? && guard in g.dropping
    case RecheckDrop => g.holder.DropRecheck?
    case Take => g.holder.DropTake?
  }

  /** The caller of `try_enqueue` is told to go ahead itself. */
  function Refuse(g: Gate, job: Job): Gate {
    g.(refused := g.refused + [Decided(job, g.live)])
  }

  function Apply(g: Gate, step: Step): Gate
    requires Enabled(g, step)
  {
    match step
    case Acquire => g.(active := g.active + 1, live := g.live + {g.nextGuard}, nextGuard := g.nextGuard + 1)
    case TryEnqueue(job) => if g.active > 0 then g.(enqueuing := g.enqueuing + [job]) else Refuse(g, job)
    case LockEnqueue(at) =>
      g.(holder := EnqueueRecheck(g.enqueuing[at]), enqueuing := g.enqueuing[..at] + g.enqueuing[at + 1..])
    case RecheckEnqueue =>
      if g.active > 0 then g.(holder := EnqueuePush(g.holder.job)) else Refuse(g, g.holder.job).(holder := Free)
    case Push =>
      var pushed := Decided(g.holder.job, g.live);
      g.(holder := Free, queue := g.queue + [pushed], pushed := g.pushed + [pushed])
    case Drop(guard) =>
      g.(active := g.active - 1, live := g.live - {guard},
         dropping := if g.active == 1 then g.dropping + {guard} else g.dropping)
    case LockDrop(guard) => g.(holder := DropRecheck(guard), dropping := g.dropping - {guard})
    case RecheckDrop => g.(holder := if g.active > 0 then Free else DropTake(g.holder.guard))
    case Take => g.(holder := Free, queue := [], taken := g.taken + g.queue)
  }

  /** Someone is still bound to look at the queue after the last guard went. */
  predicate DrainDue(g: Gate) {
    g.dropping != {} || g.holder.DropRecheck? || g.holder.DropTake?
  }

  ghost predicate Inv(g: Gate) {
    && g.active == |g.live|
    && (forall x :: x in g.live ==> x < g.nextGuard)
    // no leak
    && (g.queue != [] || g.holder.EnqueuePush? ==> g.active > 0 || DrainDue(g))
    // every pushed item is in the queue or was taken, once and in order
    && g.pushed == g.taken + g.queue
    // no premature deletion
    && (forall d :: d in g.queue ==> forall x :: x in d.alive ==> x < g.nextGuard)
    && (g.holder.DropTake? ==> forall d :: d in g.queue ==> d.alive !! g.live)
    && (forall d :: d in g.refused ==> d.alive == {})
  }

  /** Every step keeps the invariant. */
  lemma StepKeepsInv(g: Gate, step: Step)
    requires Inv(g) && Enabled(g, step)
    ensures Inv(Apply(g, step))
  {
    match step
    case Acquire =>
      assert g.nextGuard !in g.live;
    case RecheckDrop =>
      assert g.active == 0 ==> g.live == {};
    case Push =>
      var pushed := Decided(g.holder.job, g.live);
      assert forall d :: d in Apply(g, step).queue ==> d in g.queue || d == pushed;
    case TryEnqueue(_) =>
      assert g.active == 0 ==> g.live == {};
    case RecheckEnqueue =>
      assert g.active == 0 ==> g.live == {};
    case _ =>
  }

  // --- what becomes of each call ---

  function JobsOf(decided: seq<Decided>): multiset<Job> {
    if decided == [] then multiset{} else JobsOf(decided[..|decided| - 1]) + multiset([decided[|decided| - 1].job])
  }

  /** The call that holds the lock, if one does. */
  function HeldCall(holder: Holder): multiset<Job> {
    match holder
    case EnqueueRecheck(job) => multiset([job])
    case EnqueuePush(job) => multiset([job])
    case _ => multiset([])
  }

  /** Every call that was made: waiting for the lock, holding it, refused or pushed. */
  function Calls(g: Gate): multiset<Job> {
    multiset(g.enqueuing) + HeldCall(g.holder) + JobsOf(g.refused) + JobsOf(g.pushed)
  }

  lemma JobsOfMore(decided: seq<Decided>, d: Decided)
    ensures JobsOf(decided + [d]) == JobsOf(decided) + multiset([d.job])
  {
    assert (decided + [d])[..|decided|] == decided;
  }

  lemma PickedOut(jobs: seq<Job>, at: nat)
    requires at < |jobs|
    ensures multiset(jobs) == multiset(jobs[..at] + jobs[at + 1..]) + multiset([jobs[at]])
  {
    assert jobs == jobs[..at] + [jobs[at]] + jobs[at + 1..];
  }

  /** One call moves from one of the four places to another, or joins one. */
  lemma CallMoves(a: multiset<Job>, b: multiset<Job>, c: multiset<Job>, one: multiset<Job>)
    ensures (a + one) + b + c == a + b + c + one && a + (b + one) + c == a + b + c + one
    ensures a + b + (c + one) == a + b + c + one
  {
  }

  lemma TryKeepsCalls(g: Gate, job: Job)
    ensures Calls(Apply(g, TryEnqueue(job))) == Calls(g) + multiset([job])
  {
    hide JobsOf, HeldCall;
    JobsOfMore(g.refused, Decided(job, g.live));
    assert multiset(g.enqueuing + [job]) == multiset(g.enqueuing) + multiset([job]);
    var one, held, refused, pushed := multiset([job]), HeldCall(g.holder), JobsOf(g.refused), JobsOf(g.pushed);
    CallMoves(multiset(g.enqueuing), held, refused + pushed, one);
    CallMoves(multiset(g.enqueuing) + held, refused, pushed, one);
  }

  lemma LockKeepsCalls(g: Gate, at: nat)
    requires Enabled(g, LockEnqueue(at))
    ensures Calls(Apply(g, LockEnqueue(at))) == Calls(g)
  {
    hide JobsOf;
    PickedOut(g.enqueuing, at);
  }

  lemma RecheckKeepsCalls(g: Gate)
    requires Enabled(g, RecheckEnqueue)
    ensures Calls(Apply(g, RecheckEnqueue)) == Calls(g)
  {
    hide JobsOf;
    JobsOfMore(g.refused, Decided(g.holder.job, g.live));
  }

  lemma PushKeepsCalls(g: Gate)
    requires Enabled(g, Push)
    ensures Calls(Apply(g, Push)) == Calls(g)
  {
    hide JobsOf;
    JobsOfMore(g.pushed, Decided(g.holder.job, g.live));
  }

  lemma OtherKeepsCalls(g: Gate, step: Step)
    requires Enabled(g, step) && !step.TryEnqueue? && !step.LockEnqueue? && !step.RecheckEnqueue? && !step.Push?
    ensures Calls(Apply(g, step)) == Calls(g)
  {
    var t := Apply(g, step);
    assert HeldCall(t.holder) == HeldCall(g.holder);
  }

  /** No step loses a call or answers it twice. */
  lemma StepKeepsCalls(g: Gate, step: Step)
    requires Enabled(g, step)
    ensures step.TryEnqueue? ==> Calls(Apply(g, step)) == Calls(g) + multiset([step.job])
    ensures !step.TryEnqueue? ==> Calls(Apply(g, step)) == Calls(g)
  {
    hide Calls, Apply;
    match step {
      case TryEnqueue(job) => TryKeepsCalls(g, job);
      case LockEnqueue(at) => LockKeepsCalls(g, at);
      case RecheckEnqueue => RecheckKeepsCalls(g);
      case Push => PushKeepsCalls(g);
      case _ => OtherKeepsCalls(g, step);
    }
  }

  // --- every thread can finish ---

  /** No guard, no call, nothing queued, the lock free. */
  predicate Quiet(g: Gate) {
    g.live == {} && g.enqueuing == [] && g.dropping == {} && g.queue == [] && g.holder.Free?
  }
}
