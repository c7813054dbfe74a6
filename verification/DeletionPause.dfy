/**
 src/deletion_pause.rs as a whole: the pause gate hands each batch a drain takes
 to a worker. Every interleaving of any number of threads is a run.
 */
module DeletionPause {
  import opened Core
  import G = DeletionGate
  import R = Reclaims

  datatype State = State(gate: G.Gate, reclaims: R.State)

  const INITIAL := State(G.INITIAL, R.INITIAL)

  datatype Step =
    | OnGate(gate: G.Step)
    | OnReclaims(reclaims: R.Step)
    | Drain(worker: nat)

  /** The jobs behind some decisions, in order. */
  function JobSeq(decided: seq<G.Decided>): (r: seq<G.Job>)
    ensures |r| == |decided| && forall i :: 0 <= i < |r| ==> r[i] == decided[i].job
  {
    seq(|decided|, i requires 0 <= i < |decided| => decided[i].job)
  }

  ghost predicate Enabled(s: State, step: Step) {
    match step
    case OnGate(g) => !g.Take? && G.Enabled(s.gate, g)
    case OnReclaims(r) => !r.Arrive? && R.Enabled(s.reclaims, r)
    case Drain(w) => G.Enabled(s.gate, G.Take) && R.Enabled(s.reclaims, R.Arrive(w, JobSeq(s.gate.queue)))
  }

  ghost function Apply(s: State, step: Step): State
    requires Enabled(s, step)
  {
    match step
    case OnGate(g) => s.(gate := G.Apply(s.gate, g))
    case OnReclaims(r) => s.(reclaims := R.Apply(s.reclaims, r))
    case Drain(w) => State(G.Apply(s.gate, G.Take), R.Apply(s.reclaims, R.Arrive(w, JobSeq(s.gate.queue))))
  }

  /** Nobody is kept out: guards, calls and reclaims are always admitted, and a link
      window opens whenever no reclaim holds the gate. */
  lemma Admits(s: State, job: G.Job, file: nat, extents: seq<R.Extent>)
    ensures Enabled(s, OnGate(G.Acquire)) && Enabled(s, OnGate(G.TryEnqueue(job)))
    ensures Enabled(s, OnReclaims(R.Retain(file, extents)))
    ensures !s.reclaims.linking && (forall w :: R.StageOf(s.reclaims, w).Between?) ==>
            Enabled(s, OnReclaims(R.EnterLinkWindow))
    ensures s.reclaims.linking && R.LinkCount(s.reclaims, file) > 0 ==> Enabled(s, OnReclaims(R.Link(file)))
  {
  }

  /** Where a sequence of steps leads, if each can be taken. */
  ghost function After(steps: seq<Step>): Option<State> {
    if steps == [] then Some(INITIAL)
    else
      var before, step := After(steps[..|steps| - 1]), steps[|steps| - 1];
      if before.Some? && Enabled(before.value, step) then Some(Apply(before.value, step)) else None
  }

  ghost predicate Run(steps: seq<Step>, s: State) {
    After(steps) == Some(s)
  }

  /** The last step of a run, and the run before it. */
  lemma LastStep(steps: seq<Step>, s: State) returns (front: seq<Step>, before: State, step: Step)
    requires Run(steps, s) && steps != []
    ensures steps == front + [step] && |front| < |steps| && Run(front, before)
    ensures Enabled(before, step) && s == Apply(before, step)
  {
    front, step := steps[..|steps| - 1], steps[|steps| - 1];
    before := After(front).value;
  }

  lemma OneMore(steps: seq<Step>, s: State, step: Step)
    requires Run(steps, s) && Enabled(s, step)
    ensures Run(steps + [step], Apply(s, step))
  {
    assert (steps + [step])[..|steps|] == steps;
  }

  /** How often a step was taken. */
  function Times(steps: seq<Step>, step: Step): nat {
    multiset(steps)[step]
  }

  lemma TimesMore(front: seq<Step>, last: Step, step: Step)
    ensures Times(front + [last], step) == Times(front, step) + if last == step then 1 else 0
    ensures step in front + [last] <==> step in front || step == last
  {
  }

  // --- the invariant ---

  ghost predicate Inv(s: State) {
    && G.Inv(s.gate) && R.Exclusive(s.reclaims) && R.Balanced(s.reclaims)
    && R.Origins(s.reclaims.ledger, true) == JobSeq(s.gate.taken)
  }

  /** One step of anyone keeps the whole invariant. */
  lemma StepKeepsInv(s: State, step: Step)
    requires Inv(s) && Enabled(s, step)
    ensures Inv(Apply(s, step))
  {
    hide G.Inv, R.Exclusive, R.Balanced, R.Origins;
    match step {
      case OnGate(g) => GateKeepsInv(s, g);
      case OnReclaims(r) =>
        R.StepKeepsExclusive(s.reclaims, r);
        R.IsReclaiming(s.reclaims);
        R.StepKeepsBalanced(s.reclaims, r);
        R.StepKeepsOrigins(s.reclaims, r);
      case Drain(w) => DrainKeepsInv(s, w);
    }
  }

  lemma GateKeepsInv(s: State, step: G.Step)
    requires Inv(s) && Enabled(s, OnGate(step))
    ensures Inv(Apply(s, OnGate(step)))
  {
    hide G.Inv, R.Exclusive, R.Balanced, R.Origins;
    G.StepKeepsInv(s.gate, step);
  }

  lemma DrainKeepsInv(s: State, w: nat)
    requires Inv(s) && Enabled(s, Drain(w))
    ensures Inv(Apply(s, Drain(w)))
  {
    hide G.Inv, R.Exclusive, R.Balanced, R.Origins;
    var jobs := JobSeq(s.gate.queue);
    G.StepKeepsInv(s.gate, G.Take);
    R.StepKeepsExclusive(s.reclaims, R.Arrive(w, jobs));
    R.IsReclaiming(s.reclaims);
    R.StepKeepsBalanced(s.reclaims, R.Arrive(w, jobs));
    R.StepKeepsOrigins(s.reclaims, R.Arrive(w, jobs));
    assert JobSeq(s.gate.taken + s.gate.queue) == JobSeq(s.gate.taken) + jobs;
  }

  lemma InitialInv()
    ensures Inv(INITIAL)
  {
  }

  /** The invariant holds in every state any interleaving can reach. */
  lemma {:induction false} Reachable(steps: seq<Step>, s: State)
    requires Run(steps, s)
    ensures Inv(s)
    decreases |steps|
  {
    hide Inv, Run, Enabled;
    if steps == [] {
      assert s == INITIAL by { StartsThere(s); }
      InitialInv();
    } else {
      var front, before, step := LastStep(steps, s);
      Reachable(front, before);
      StepKeepsInv(before, step);
    }
  }

  lemma StartsThere(s: State)
    requires Run([], s)
    ensures s == INITIAL
  {
  }

  // --- nothing leaks, nothing is premature ---

  /** No deferred deletion is forgotten: a non-empty queue means a live pause or a
      drop that has yet to look at it. Once all is quiet the queue is empty, and
      everything ever queued has been taken, once and in order. */
  lemma NothingLeaks(steps: seq<Step>, s: State)
    requires Run(steps, s)
    ensures s.gate.queue != [] ==> s.gate.live != {} || G.DrainDue(s.gate)
    ensures s.gate.live == {} && s.gate.dropping == {} && s.gate.holder.Free? ==>
              s.gate.queue == [] && s.gate.taken == s.gate.pushed
  {
    hide Run, R.Exclusive, R.Balanced, R.Origins;
    Reachable(steps, s);
  }

  /** What a drain takes is carried out: the items that workers were given are exactly
      the jobs taken from the queue, each once and in order, with their file and
      their action. */
  lemma DrainsAreCarriedOut(steps: seq<Step>, s: State)
    requires Run(steps, s)
    ensures R.Origins(s.reclaims.ledger, true) == JobSeq(s.gate.taken)
  {
    hide Run, G.Inv, R.Exclusive, R.Balanced, R.Origins;
    Reachable(steps, s);
  }

  /** Nothing is deleted early: when a drain takes the queue, every guard that was
      alive when an item was pushed is gone, whoever has arrived since. */
  lemma NothingIsPremature(steps: seq<Step>, s: State, worker: nat, pushed: G.Decided)
    requires Run(steps, s) && Enabled(s, Drain(worker)) && pushed in s.gate.queue
    ensures pushed.alive !! s.gate.live
  {
    hide R.Exclusive, R.Balanced, R.Origins, Run;
    Reachable(steps, s);
  }

  /** And no caller is told to delete under a pause: whenever a call is refused, no
      guard is alive. */
  lemma NoneRefusedUnderPause(steps: seq<Step>, s: State, refused: G.Decided)
    requires Run(steps, s) && refused in s.gate.refused
    ensures refused.alive == {}
  {
    hide R.Exclusive, R.Balanced, R.Origins, Run;
    Reachable(steps, s);
  }

  /** Every call is accounted for once: as often as a job was tried, it is waiting for
      the lock, holding it, refused or pushed. */
  lemma {:induction false} CallsAreCounted(steps: seq<Step>, s: State, job: G.Job)
    requires Run(steps, s)
    ensures Times(steps, OnGate(G.TryEnqueue(job))) == G.Calls(s.gate)[job]
    decreases |steps|
  {
    hide Run, Enabled, Times, G.Calls;
    var call := OnGate(G.TryEnqueue(job));
    if steps == [] {
      StartsThere(s);
      assert G.Calls(INITIAL.gate)[job] == 0 && Times([], call) == 0 by { NoCalls(job); }
    } else {
      var front, before, step := LastStep(steps, s);
      CallsAreCounted(front, before, job);
      TimesMore(front, step, call);
      CallsStep(before, step, job);
    }
  }

  lemma NoCalls(job: G.Job)
    ensures G.Calls(INITIAL.gate)[job] == 0 && Times([], OnGate(G.TryEnqueue(job))) == 0
  {
  }

  lemma CallsStep(s: State, step: Step, job: G.Job)
    requires Enabled(s, step)
    ensures G.Calls(Apply(s, step).gate)[job] ==
            G.Calls(s.gate)[job] + if step == OnGate(G.TryEnqueue(job)) then 1 else 0
  {
    hide G.Calls, R.Apply;
    match step {
      case OnGate(g) => G.StepKeepsCalls(s.gate, g);
      case OnReclaims(_) =>
      case Drain(_) => G.StepKeepsCalls(s.gate, G.Take);
    }
  }

  /** The live guards are those acquired and not yet dropped, and the counter counts
      them. */
  lemma {:induction false} GuardsAreCounted(steps: seq<Step>, s: State, guard: G.Guard)
    requires Run(steps, s)
    ensures s.gate.nextGuard == Times(steps, OnGate(G.Acquire))
    ensures guard in s.gate.live <==> guard < s.gate.nextGuard && OnGate(G.Drop(guard)) !in steps
    ensures OnGate(G.Drop(guard)) in steps ==> guard < s.gate.nextGuard
    decreases |steps|
  {
    hide Run, Times, R.Enabled, R.Apply;
    if steps == [] {
      StartsThere(s);
      assert Times([], OnGate(G.Acquire)) == 0 by { NoTimes(OnGate(G.Acquire)); }
    } else {
      var front, before, step := LastStep(steps, s);
      GuardsAreCounted(front, before, guard);
      TimesMore(front, step, OnGate(G.Acquire));
      TimesMore(front, step, OnGate(G.Drop(guard)));
    }
  }

  lemma NoTimes(step: Step)
    ensures Times([], step) == 0
  {
  }

  /** A guard that goes to the queue, waiting for its lock or holding it. */
  predicate Looks(g: G.Gate, guard: G.Guard) {
    guard in g.dropping || g.holder == G.DropRecheck(guard) || g.holder == G.DropTake(guard)
  }

  /** Only a guard that was dropped as the last one alive goes to the queue. */
  lemma {:induction false} OnlyTheLastLooks(steps: seq<Step>, s: State, guard: G.Guard) returns (k: nat, at: State)
    requires Run(steps, s) && Looks(s.gate, guard)
    ensures k < |steps| && steps[k] == OnGate(G.Drop(guard)) && Run(steps[..k], at)
    ensures forall x :: x in at.gate.live <==> x == guard
    decreases |steps|
  {
    hide Run, R.Enabled, R.Apply, G.Inv, R.Exclusive, R.Balanced, R.Origins;
    if steps == [] {
      StartsThere(s);
      assert false;
    }
    var front, before, step := LastStep(steps, s);
    if Looks(before.gate, guard) {
      k, at := OnlyTheLastLooks(front, before, guard);
      assert steps[..k] == front[..k];
    } else {
      k, at := |front|, before;
      assert steps[..k] == front;
      Reachable(front, before);
      LoneGuard(before.gate, guard);
    }
  }

  lemma LoneGuard(g: G.Gate, guard: G.Guard)
    requires G.Inv(g) && g.active == 1 && guard in g.live
    ensures forall x :: x in g.live ==> x == guard
  {
    assert |g.live - {guard}| == 0;
  }

  // --- files and their names ---

  /** A file has its own name and those the checkpoints gave it and did not drop. */
  lemma {:induction false} NamesAreCounted(steps: seq<Step>, s: State, file: nat)
    requires Run(steps, s)
    ensures R.LinkCount(s.reclaims, file) ==
            Times(steps, OnReclaims(R.Link(file))) - Times(steps, OnReclaims(R.DropLink(file))) +
            if file in s.reclaims.paths then 1 else 0
    ensures R.Others(s.reclaims, file) >= 0
    decreases |steps|
  {
    hide Run, Times, R.Enabled, R.Apply, G.Apply, G.Enabled;
    var link, unlink := OnReclaims(R.Link(file)), OnReclaims(R.DropLink(file));
    if steps == [] {
      StartsThere(s);
      NoTimes(link);
      NoTimes(unlink);
    } else {
      var front, before, step := LastStep(steps, s);
      NamesAreCounted(front, before, file);
      TimesMore(front, step, link);
      TimesMore(front, step, unlink);
      match step {
        case OnGate(_) =>
        case OnReclaims(r) => R.StepKeepsNames(before.reclaims, r, file);
        case Drain(w) => R.StepKeepsNames(before.reclaims, R.Arrive(w, JobSeq(before.gate.queue)), file);
      }
    }
  }

  /** A file is in the tree's directory if and only if it was created there and neither
      someone else nor a drain removed it. */
  lemma {:induction false} PathsAreCounted(steps: seq<Step>, s: State, file: nat)
    requires Run(steps, s)
    ensures file in s.reclaims.paths <==>
            && OnReclaims(R.Create(file)) in steps && OnReclaims(R.RemovePath(file)) !in steps
            && !R.WasRemoved(s.reclaims.ledger, file)
    ensures file in s.reclaims.links <==> OnReclaims(R.Create(file)) in steps
    ensures OnReclaims(R.RemovePath(file)) in steps || R.WasRemoved(s.reclaims.ledger, file) ==>
            OnReclaims(R.Create(file)) in steps
    decreases |steps|
  {
    hide Run, R.Enabled, R.Apply, R.WasRemoved, G.Apply, G.Enabled, G.Inv, R.Balanced, R.Exclusive, R.Origins;
    if steps == [] {
      StartsThere(s);
      assert !R.WasRemoved([], file) by { R.NoneRemoved(file); }
    } else {
      var front, before, step := LastStep(steps, s);
      PathsAreCounted(front, before, file);
      Reachable(front, before);
      match step {
        case OnGate(_) =>
        case OnReclaims(r) => R.StepKeepsPaths(before.reclaims, r, file);
        case Drain(w) => R.StepKeepsPaths(before.reclaims, R.Arrive(w, JobSeq(before.gate.queue)), file);
      }
    }
  }

  /** A drain that removes a file takes its own name away, one link less, and notes it. */
  lemma RemovalRemoves(steps: seq<Step>, s: State, worker: nat)
    requires Run(steps, s) && Enabled(s, OnReclaims(R.RemoveFile(worker, true)))
    ensures
      var file, t := R.BatchOf(s.reclaims, worker)[0].file, Apply(s, OnReclaims(R.RemoveFile(worker, true))).reclaims;
      && file in s.reclaims.paths && file !in t.paths && R.WasRemoved(t.ledger, file)
      && R.LinkCount(t, file) == R.LinkCount(s.reclaims, file) - 1
  {
    hide Run, G.Inv, R.Exclusive, R.Balanced, R.Origins, R.WasRemoved;
    Reachable(steps, s);
    var file := R.BatchOf(s.reclaims, worker)[0].file;
    R.StepKeepsRemoved(s.reclaims, R.RemoveFile(worker, true), file);
    NamesAreCounted(steps, s, file);
    R.StepKeepsNames(s.reclaims, R.RemoveFile(worker, true), file);
  }

  // --- reclaims ---

  /** No run punches a file that has a second name. */
  lemma SharedFilesStayIntact(steps: seq<Step>, s: State, worker: nat, ok: bool)
    requires Run(steps, s) && Enabled(s, OnReclaims(R.PunchNext(worker, ok)))
    ensures R.LinkCount(s.reclaims, R.BatchOf(s.reclaims, worker)[0].file) <= 1
  {
    hide Run, G.Inv, R.Balanced, R.Origins;
    Reachable(steps, s);
  }

  /** An answered probe starts punching if and only if the file is there under its own
      name alone. It gives the item up if and only if the file is gone. In every other
      case, and if it cannot answer, the whole item is retained. */
  lemma ProbeDecides(s: State, worker: nat, answered: bool)
    requires Enabled(s, OnReclaims(R.Probe(worker, answered)))
    ensures
      var item := R.BatchOf(s.reclaims, worker)[0];
      var file, t := item.file, Apply(s, OnReclaims(R.Probe(worker, answered))).reclaims;
      var alone := file in s.reclaims.paths && (file in s.reclaims.links ==> s.reclaims.links[file] <= 1);
      && (R.StageOf(t, worker) == R.Punching(0) <==> answered && alone)
      && (answered && alone ==> R.BatchOf(t, worker)[0] == item && t.retained == s.reclaims.retained)
      && (answered && file !in s.reclaims.paths ==> t.retained == s.reclaims.retained)
      && (!(answered && alone) && !(answered && file !in s.reclaims.paths) ==>
            t.retained == s.reclaims.retained + [item.(action := G.Punch(R.Extents(item.action)))])
      && (!(answered && alone) ==> R.BatchOf(t, worker) == R.BatchOf(s.reclaims, worker)[1..])
  {
    assert R.Extents(R.BatchOf(s.reclaims, worker)[0].action)[0..] == R.Extents(R.BatchOf(s.reclaims, worker)[0].action);
  }

  /** However often a reclaim is put back and retried, what was punched is a prefix
      of its list, in order. Once no worker has anything left, it got everything,
      or its file is gone, or exactly one retained item asks for exactly the rest. */
  lemma ReclaimsAreConserved(steps: seq<Step>, s: State, id: nat)
    requires Run(steps, s) && id < |s.reclaims.ledger|
    ensures
      var account := s.reclaims.ledger[id];
      && account.punched <= R.Extents(account.action)
      && ((forall w :: R.BatchOf(s.reclaims, w) == []) && account.action.Punch? ==>
            || account.action == G.Punch(account.punched)
            || account.file !in s.reclaims.paths
            || exists i :: 0 <= i < |s.reclaims.retained| && AsksForRest(s.reclaims.retained, i, id, account))
  {
    hide Run, G.Inv, R.Exclusive, R.Origins;
    Reachable(steps, s);
    var r, account := s.reclaims, s.reclaims.ledger[id];
    if account.place.Retained? {
      var i :| 0 <= i < |r.retained| && r.retained[i].id == id;
      assert R.Owed(r.ledger, r.retained[i], R.Retained, 0);
      assert AsksForRest(r.retained, i, id, account);
    } else if account.place.With? {
      assert R.Holds(r.ledger, R.BatchOf(r, account.place.worker), account.place, R.Progress(r, account.place.worker));
    }
  }

  /** Item `i`, and no other, continues reclaim `id`. */
  ghost predicate AsksForRest(retained: seq<R.Item>, i: nat, id: nat, account: R.Account)
    requires i < |retained|
  {
    && retained[i].id == id && retained[i].file == account.file
    && R.Extents(account.action) == account.punched + R.Extents(retained[i].action)
    && forall j :: 0 <= j < |retained| && j != i ==> retained[j].id != id
  }

  /** Reclaims that a table retains directly are all on the books, each as often as it
      was retained. */
  lemma {:induction false} RetainsAreCounted(steps: seq<Step>, s: State, file: nat, extents: seq<R.Extent>)
    requires Run(steps, s)
    ensures multiset(R.Origins(s.reclaims.ledger, false))[G.Job(file, G.Punch(extents))] ==
            Times(steps, OnReclaims(R.Retain(file, extents)))
    decreases |steps|
  {
    hide Run, Times, R.Enabled, R.Apply, G.Apply, G.Enabled;
    var retain := OnReclaims(R.Retain(file, extents));
    if steps == [] {
      StartsThere(s);
      NoTimes(retain);
    } else {
      hide R.Origins;
      var front, before, step := LastStep(steps, s);
      RetainsAreCounted(front, before, file, extents);
      TimesMore(front, step, retain);
      match step {
        case OnGate(_) =>
        case OnReclaims(r) => R.StepKeepsOrigins(before.reclaims, r);
        case Drain(w) => R.StepKeepsOrigins(before.reclaims, R.Arrive(w, JobSeq(before.gate.queue)));
      }
    }
  }

  /** A link window is open if and only if one was entered and not left. */
  lemma {:induction false} WindowsAreCounted(steps: seq<Step>, s: State)
    requires Run(steps, s)
    ensures Times(steps, OnReclaims(R.EnterLinkWindow)) ==
            Times(steps, OnReclaims(R.LeaveLinkWindow)) + if s.reclaims.linking then 1 else 0
    decreases |steps|
  {
    hide Run, Times, G.Apply, G.Enabled;
    if steps == [] {
      StartsThere(s);
      NoTimes(OnReclaims(R.EnterLinkWindow));
      NoTimes(OnReclaims(R.LeaveLinkWindow));
    } else {
      var front, before, step := LastStep(steps, s);
      WindowsAreCounted(front, before);
      TimesMore(front, step, OnReclaims(R.EnterLinkWindow));
      TimesMore(front, step, OnReclaims(R.LeaveLinkWindow));
    }
  }
}
