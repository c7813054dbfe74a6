/**
 From every state of the pause protocol everything that was started can be brought to
 an end: no lock stays held, no call, drain or reclaim is stuck.
 */
module PauseProgress {
  import opened Core
  import opened DeletionPause

  lemma Continue(steps: seq<Step>, s: State, step: Step) returns (more: seq<Step>, t: State)
    requires Run(steps, s) && Enabled(s, step)
    ensures more == [step] && t == Apply(s, step) && Run(steps + more, t) && Inv(t)
  {
    hide Inv, Enabled, Run, Apply;
    more, t := [step], Apply(s, step);
    OneMore(steps, s, step);
    Reachable(steps + more, t);
  }

  lemma Joined(steps: seq<Step>, a: seq<Step>, b: seq<Step>)
    ensures (steps + a) + b == steps + (a + b)
  {
  }

  lemma {:induction false} Beyond(used: set<nat>) returns (n: nat)
    ensures forall x :: x in used ==> x < n
  {
    if used == {} {
      n := 0;
    } else {
      var x :| x in used;
      var m := Beyond(used - {x});
      n := if x < m then m else x + 1;
      assert forall y :: y in used ==> y == x || y in used - {x};
    }
  }

  // --- the gate ---

  function Rank(holder: G.Holder): nat {
    match holder
    case Free => 0
    case EnqueueRecheck(_) => 3
    case EnqueuePush(_) => 2
    case DropRecheck(_) => 3
    case DropTake(_) => 2
  }

  function Pending(g: G.Gate): nat {
    4 * |g.enqueuing| + 8 * |g.live| + 4 * |g.dropping| + Rank(g.holder)
  }

  /** A step of the gate that is due, or none if it is quiet. */
  lemma DueStep(g: G.Gate) returns (step: Option<G.Step>)
    requires G.Inv(g)
    ensures step.None? ==> G.Quiet(g)
    ensures step.Some? ==> G.Enabled(g, step.value) && Pending(G.Apply(g, step.value)) < Pending(g)
  {
    match g.holder {
      case EnqueueRecheck(_) => step := Some(G.RecheckEnqueue);
      case EnqueuePush(_) => step := Some(G.Push);
      case DropRecheck(_) => step := Some(G.RecheckDrop);
      case DropTake(_) => step := Some(G.Take);
      case Free =>
        if g.enqueuing != [] {
          step := Some(G.LockEnqueue(0));
        } else if guard :| guard in g.live {
          step := Some(G.Drop(guard));
          DropCounts(g, guard);
        } else if guard :| guard in g.dropping {
          step := Some(G.LockDrop(guard));
        } else {
          step := None;
        }
    }
  }

  /** The same as a step of the whole; a drain needs a worker. */
  lemma DueWhole(s: State) returns (step: Option<Step>)
    requires Inv(s)
    ensures step.None? ==> G.Quiet(s.gate)
    ensures step.Some? ==> Enabled(s, step.value) && Pending(Apply(s, step.value).gate) < Pending(s.gate)
    ensures step.Some? ==> Apply(s, step.value).reclaims.linking == s.reclaims.linking
  {
    hide R.Exclusive, R.Balanced, R.Origins, G.Inv, G.Quiet, G.Apply, G.Enabled, Pending;
    var due := DueStep(s.gate);
    if due.None? {
      return None;
    }
    if due.value.Take? {
      var w := Beyond(s.reclaims.workers.Keys);
      return Some(Drain(w));
    }
    return Some(OnGate(due.value));
  }

  lemma DropCounts(g: G.Gate, guard: G.Guard)
    requires guard in g.live
    ensures Pending(G.Apply(g, G.Drop(guard))) < Pending(g)
  {
    var t := G.Apply(g, G.Drop(guard));
    assert |g.live - {guard}| == |g.live| - 1;
    assert t.dropping == g.dropping || t.dropping == g.dropping + {guard};
  }

  /** Every guard can be dropped, every call answered and the queue drained. */
  lemma {:induction false} GateSettles(steps: seq<Step>, s: State) returns (more: seq<Step>, t: State)
    requires Run(steps, s)
    ensures Run(steps + more, t) && G.Quiet(t.gate) && t.reclaims.linking == s.reclaims.linking
    decreases Pending(s.gate)
  {
    hide Inv, Enabled, Run, Apply, Pending, G.Quiet;
    Reachable(steps, s);
    var step := DueWhole(s);
    if step.None? {
      more, t := [], s;
      assert steps + [] == steps;
    } else {
      var first, next := Continue(steps, s, step.value);
      more, t := GateSettles(steps + first, next);
      Joined(steps, first, more);
      more := first + more;
    }
  }

  // --- the workers ---

  function Cost(items: seq<R.Item>): nat {
    if items == [] then 0 else |R.Extents(items[0].action)| + 4 + Cost(items[1..])
  }

  function Spent(stage: R.Stage): nat {
    match stage
    case Between => 0
    case Entered => 1
    case Punching(at) => 2 + at
  }

  function Todo(s: R.State, w: nat): int {
    Cost(R.BatchOf(s, w)) - Spent(R.StageOf(s, w))
  }

  /** Every item of the batch can be punched, or its file is gone. */
  ghost predicate Clear(s: R.State, w: nat) {
    && (forall i :: 0 <= i < |R.BatchOf(s, w)| ==>
          R.BatchOf(s, w)[i].action.Punch? && R.LinkCount(s, R.BatchOf(s, w)[i].file) <= 1)
    && (R.StageOf(s, w).Punching? ==> R.BatchOf(s, w) != [] && R.BatchOf(s, w)[0].file in s.paths)
  }

  /** A worker's next step. */
  function NextStep(s: R.State, w: nat): R.Step
    requires R.BatchOf(s, w) != []
  {
    var item := R.BatchOf(s, w)[0];
    if item.action.Remove? then R.RemoveFile(w, item.file in s.paths)
    else match R.StageOf(s, w)
      case Between => R.EnterMutationWindow(w)
      case Entered => R.Probe(w, true)
      case Punching(at) =>
        if at < |R.Extents(item.action)| then R.PunchNext(w, item.file in s.paths) else R.LeaveMutationWindow(w)
  }

  lemma NextIsEnabled(s: R.State, w: nat)
    requires R.Reclaiming(s) && R.Balanced(s) && !s.linking && R.BatchOf(s, w) != []
    ensures R.Enabled(s, NextStep(s, w)) && Todo(s, w) > 0
  {
    assert R.Owed(s.ledger, R.BatchOf(s, w)[0], R.With(w), R.Progress(s, w)) by {
      assert R.Holds(s.ledger, R.BatchOf(s, w), R.With(w), R.Progress(s, w));
    }
    assert R.Mutating(s, w) ==> R.BatchOf(s, w)[0].action.Punch?;
  }

  /** It brings the worker closer to its end and disturbs nobody. */
  lemma NextAdvances(s: R.State, w: nat)
    requires R.BatchOf(s, w) != [] && R.Enabled(s, NextStep(s, w))
    ensures
      var t := R.Apply(s, NextStep(s, w));
      && Todo(t, w) < Todo(s, w) && t.linking == s.linking
      && (forall v :: v != w ==> R.BatchOf(t, v) == R.BatchOf(s, v))
  {
    var batch := R.BatchOf(s, w);
    assert Cost(batch) == |R.Extents(batch[0].action)| + 4 + Cost(batch[1..]);
  }

  lemma NextKeepsClear(s: R.State, w: nat)
    requires R.BatchOf(s, w) != [] && R.Enabled(s, NextStep(s, w)) && Clear(s, w) && s.retained == []
    ensures Clear(R.Apply(s, NextStep(s, w)), w) && R.Apply(s, NextStep(s, w)).retained == []
  {
    var t := R.Apply(s, NextStep(s, w));
    assert R.BatchOf(s, w)[0].action.Punch?;
    assert t.links == s.links && t.paths == s.paths;
    assert R.BatchOf(t, w) == R.BatchOf(s, w) || R.BatchOf(t, w) == R.BatchOf(s, w)[1..];
  }

  /** A worker can finish its batch. */
  lemma {:induction false} WorkerFinishes(steps: seq<Step>, s: State, w: nat) returns (more: seq<Step>, t: State)
    requires Run(steps, s) && !s.reclaims.linking
    ensures Run(steps + more, t) && !t.reclaims.linking && t.gate == s.gate && R.BatchOf(t.reclaims, w) == []
    ensures forall v :: v != w ==> R.BatchOf(t.reclaims, v) == R.BatchOf(s.reclaims, v)
    ensures Clear(s.reclaims, w) && s.reclaims.retained == [] ==> t.reclaims.retained == []
    decreases Todo(s.reclaims, w)
  {
    hide Run, Todo, Clear, R.Apply, R.Enabled, R.Balanced, R.Exclusive, G.Inv, R.Origins;
    Reachable(steps, s);
    if R.BatchOf(s.reclaims, w) == [] {
      more, t := [], s;
      assert steps + [] == steps;
    } else {
      var step := NextStep(s.reclaims, w);
      R.IsReclaiming(s.reclaims);
      NextIsEnabled(s.reclaims, w);
      NextAdvances(s.reclaims, w);
      if Clear(s.reclaims, w) && s.reclaims.retained == [] {
        NextKeepsClear(s.reclaims, w);
      }
      var first, next := Continue(steps, s, OnReclaims(step));
      more, t := WorkerFinishes(steps + first, next, w);
      Joined(steps, first, more);
      more := first + more;
    }
  }

  ghost function BusyWorkers(s: R.State): set<nat> {
    set w | w in s.workers && R.BatchOf(s, w) != []
  }

  /** All workers can. */
  lemma {:induction false} WorkersFinish(steps: seq<Step>, s: State) returns (more: seq<Step>, t: State)
    requires Run(steps, s) && !s.reclaims.linking
    ensures Run(steps + more, t) && !t.reclaims.linking && t.gate == s.gate
    ensures forall w :: R.BatchOf(t.reclaims, w) == []
    decreases BusyWorkers(s.reclaims)
  {
    hide Run, Inv;
    if w :| w in BusyWorkers(s.reclaims) {
      var first, next := WorkerFinishes(steps, s, w);
      assert BusyWorkers(next.reclaims) < BusyWorkers(s.reclaims) by { OneLessBusy(s.reclaims, next.reclaims, w); }
      more, t := WorkersFinish(steps + first, next);
      Joined(steps, first, more);
      more := first + more;
    } else {
      more, t := [], s;
      assert steps + [] == steps;
      forall w ensures R.BatchOf(s.reclaims, w) == [] {
        assert w !in BusyWorkers(s.reclaims);
      }
    }
  }

  lemma OneLessBusy(s: R.State, t: R.State, w: nat)
    requires w in BusyWorkers(s) && R.BatchOf(t, w) == []
    requires forall v :: v != w ==> R.BatchOf(t, v) == R.BatchOf(s, v)
    ensures BusyWorkers(t) < BusyWorkers(s)
  {
    forall v | v in BusyWorkers(t) ensures v in BusyWorkers(s) {
      assert v != w && R.BatchOf(s, v) != [];
    }
    assert w !in BusyWorkers(t);
  }

  // --- the retained reclaims ---

  /** Checkpoints can let go of a file until it has one name. */
  lemma {:induction false} Unshared(steps: seq<Step>, s: State, file: nat) returns (more: seq<Step>, t: State)
    requires Run(steps, s)
    ensures Run(steps + more, t) && t.gate == s.gate && R.LinkCount(t.reclaims, file) <= 1
    ensures t.reclaims == s.reclaims.(links := t.reclaims.links)
    ensures forall f :: R.LinkCount(t.reclaims, f) <= R.LinkCount(s.reclaims, f)
    decreases R.LinkCount(s.reclaims, file)
  {
    hide Run, Inv;
    if R.LinkCount(s.reclaims, file) <= 1 {
      more, t := [], s;
      assert steps + [] == steps;
    } else {
      var first, next := Continue(steps, s, OnReclaims(R.DropLink(file)));
      more, t := Unshared(steps + first, next, file);
      Joined(steps, first, more);
      more := first + more;
    }
  }

  lemma {:induction false} AllUnshared(steps: seq<Step>, s: State, n: nat) returns (more: seq<Step>, t: State)
    requires Run(steps, s) && n <= |s.reclaims.retained|
    ensures Run(steps + more, t) && t.gate == s.gate
    ensures t.reclaims == s.reclaims.(links := t.reclaims.links)
    ensures forall i :: 0 <= i < n ==> R.LinkCount(t.reclaims, s.reclaims.retained[i].file) <= 1
    decreases n
  {
    hide Run, Inv, R.LinkCount;
    if n == 0 {
      more, t := [], s;
      assert steps + [] == steps;
    } else {
      var first, next := AllUnshared(steps, s, n - 1);
      more, t := Unshared(steps + first, next, s.reclaims.retained[n - 1].file);
      Joined(steps, first, more);
      more := first + more;
    }
  }

  /** Once nobody else works and no file is shared, a retry completes every reclaim. */
  lemma RetainedFinish(steps: seq<Step>, s: State) returns (more: seq<Step>, t: State)
    requires Run(steps, s) && !s.reclaims.linking && forall w :: R.BatchOf(s.reclaims, w) == []
    ensures Run(steps + more, t) && t.gate == s.gate && !t.reclaims.linking && t.reclaims.retained == []
    ensures forall w :: R.BatchOf(t.reclaims, w) == []
  {
    hide Run, Inv, Clear;
    var a, unshared := AllUnshared(steps, s, |s.reclaims.retained|);
    var w := Beyond(unshared.reclaims.workers.Keys);
    var b, retrying := Continue(steps + a, unshared, OnReclaims(R.Retry(w)));
    Joined(steps, a, b);
    RetryIsClear(steps + a, unshared, w);
    var c, done := WorkerFinishes(steps + (a + b), retrying, w);
    forall v ensures R.BatchOf(done.reclaims, v) == [] {
      assert v != w ==> R.BatchOf(retrying.reclaims, v) == R.BatchOf(unshared.reclaims, v) == R.BatchOf(s.reclaims, v);
    }
    Joined(steps, a + b, c);
    more, t := a + b + c, done;
  }

  lemma RetryIsClear(steps: seq<Step>, s: State, w: nat)
    requires Run(steps, s) && R.Enabled(s.reclaims, R.Retry(w))
    requires forall i :: 0 <= i < |s.reclaims.retained| ==> R.LinkCount(s.reclaims, s.reclaims.retained[i].file) <= 1
    ensures Clear(R.Apply(s.reclaims, R.Retry(w)), w)
  {
    hide Run, G.Inv, R.Balanced, R.Origins;
    Reachable(steps, s);
  }

  /** From every state that any interleaving can reach, everything can be brought to an
      end: the guards dropped, the calls answered, the queue drained, the batches worked
      off, and every reclaim completed or its file gone. */
  lemma EverythingCanFinish(steps: seq<Step>, s: State) returns (more: seq<Step>, t: State)
    requires Run(steps, s)
    ensures Run(steps + more, t) && G.Quiet(t.gate) && !t.reclaims.linking && t.reclaims.retained == []
    ensures forall w :: R.BatchOf(t.reclaims, w) == []
    ensures forall id :: 0 <= id < |t.reclaims.ledger| ==> R.Ended(t.reclaims.ledger[id].place)
  {
    hide Run, Inv, Enabled, Apply;
    var a, quiet := GateSettles(steps, s);
    var b, unlinked := LinkingEnds(steps + a, quiet);
    Joined(steps, a, b);
    var c, idle := WorkersFinish(steps + (a + b), unlinked);
    Joined(steps, a + b, c);
    var d, done := RetainedFinish(steps + (a + b + c), idle);
    Joined(steps, a + b + c, d);
    more, t := a + b + c + d, done;
    NothingOpen(steps + more, t);
  }

  lemma LinkingEnds(steps: seq<Step>, s: State) returns (more: seq<Step>, t: State)
    requires Run(steps, s)
    ensures Run(steps + more, t) && t.gate == s.gate && !t.reclaims.linking
  {
    hide Run, Inv;
    if s.reclaims.linking {
      more, t := Continue(steps, s, OnReclaims(R.LeaveLinkWindow));
    } else {
      more, t := [], s;
      assert steps + [] == steps;
    }
  }

  lemma NothingOpen(steps: seq<Step>, s: State)
    requires Run(steps, s) && s.reclaims.retained == [] && forall w :: R.BatchOf(s.reclaims, w) == []
    ensures forall id :: 0 <= id < |s.reclaims.ledger| ==> R.Ended(s.reclaims.ledger[id].place)
  {
    hide Run, G.Inv, R.Exclusive, R.Origins;
    Reachable(steps, s);
    var r := s.reclaims;
    forall id | 0 <= id < |r.ledger|
      ensures R.Ended(r.ledger[id].place)
    {
      var w := if r.ledger[id].place.With? then r.ledger[id].place.worker else 0;
      assert R.Holds(r.ledger, R.BatchOf(r, w), R.With(w), R.Progress(r, w));
    }
  }
}
