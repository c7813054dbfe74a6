/**
 src/deletion_pause.rs: what drains and retries do with the items they take, and
 the gate that keeps a checkpoint's hard links out of a reclaim's probe and
 punches, as atomic steps of any number of worker threads.
 */
module Reclaims {
  import opened DeletionGate

  type Extent = (nat, nat)

  /** An item taken from a queue. The number only names it in the ledger. */
  datatype Item = Item(id: nat, file: nat, action: Action)

  datatype Stage = Between | Entered | Punching(at: nat)

  /** A thread executing a batch front to back. Past `Between` it holds the read
      side of the link gate on behalf of the first item. */
  datatype Work = Work(batch: seq<Item>, stage: Stage)

  /** Where an item is, or how it ended: every extent punched, its file found gone, its
      file removed, or the removal failed. */
  datatype Place = Retained | With(worker: nat) | Finished | Gone | Removed | RemoveFailed

  predicate Ended(place: Place) {
    !place.Retained? && !place.With?
  }

  /** What has happened so far to one item that was drained from the queue, or else
      retained by a table. No step looks at it. */
  datatype Account = Account(file: nat, action: Action, punched: seq<Extent>, place: Place, drained: bool)

  /** `links` counts the names of each file; `paths` are the files whose name in
      the tree's own directory, the one a queued item carries, still exists. */
  datatype State = State(retained: seq<Item>, workers: map<nat, Work>, linking: bool, links: map<nat, nat>,
                         paths: set<nat>, ledger: seq<Account>)

  const INITIAL := State([], map[], false, map[], {}, [])

  datatype Step =
    | Arrive(worker: nat, jobs: seq<Job>)
    | Retain(file: nat, extents: seq<Extent>)
    | Retry(worker: nat)
    | RemoveFile(worker: nat, ok: bool)
    | EnterMutationWindow(worker: nat)
    | Probe(worker: nat, answered: bool)
    | PunchNext(worker: nat, ok: bool)
    | LeaveMutationWindow(worker: nat)
    | EnterLinkWindow
    | Link(file: nat)
    | LeaveLinkWindow
    | Create(file: nat)
    | RemovePath(file: nat)
    | DropLink(file: nat)

  function LinkCount(s: State, file: nat): nat {
    if file in s.links then s.links[file] else 0
  }

  function Extents(action: Action): seq<Extent> {
    match action
    case Remove => []
    case Punch(extents) => extents
  }

  function BatchOf(s: State, w: nat): seq<Item> {
    if w in s.workers then s.workers[w].batch else []
  }

  function StageOf(s: State, w: nat): Stage {
    if w in s.workers then s.workers[w].stage else Between
  }

  predicate Mutating(s: State, w: nat) {
    StageOf(s, w) != Between
  }

  predicate Busy(s: State, w: nat, stage: Stage) {
    BatchOf(s, w) != [] && StageOf(s, w) == stage
  }

  ghost predicate Enabled(s: State, step: Step) {
    match step
    case Arrive(w, _) => w !in s.workers
    case Retain(_, _) => true
    case Retry(w) => w !in s.workers
    case RemoveFile(w, ok) =>
      Busy(s, w, Between) && BatchOf(s, w)[0].action.Remove? && (ok ==> BatchOf(s, w)[0].file in s.paths)
    case EnterMutationWindow(w) => Busy(s, w, Between) && BatchOf(s, w)[0].action.Punch? && !s.linking
    case Probe(w, _) => Busy(s, w, Entered)
    case PunchNext(w, ok) =>
      && BatchOf(s, w) != [] && StageOf(s, w).Punching? && StageOf(s, w).at < |Extents(BatchOf(s, w)[0].action)|
      && (ok ==> BatchOf(s, w)[0].file in s.paths)
    case LeaveMutationWindow(w) =>
      BatchOf(s, w) != [] && StageOf(s, w).Punching? && StageOf(s, w).at == |Extents(BatchOf(s, w)[0].action)|
    case EnterLinkWindow => !s.linking && forall w :: !Mutating(s, w)
    case Link(file) => s.linking && LinkCount(s, file) > 0
    case LeaveLinkWindow => s.linking
    case Create(file) => file !in s.links && forall id :: 0 <= id < |s.ledger| ==> s.ledger[id].file != file
    case RemovePath(file) => file in s.paths
    case DropLink(file) => LinkCount(s, file) > if file in s.paths then 1 else 0
  }

  function WithoutPath(s: State, file: nat): State {
    var count := LinkCount(s, file);
    s.(links := s.links[file := if count > 0 then count - 1 else 0], paths := s.paths - {file})
  }

  function Numbered(jobs: seq<Job>, first: nat): seq<Item> {
    seq(|jobs|, i requires 0 <= i < |jobs| => Item(first + i, jobs[i].file, jobs[i].action))
  }

  function Opened(jobs: seq<Job>, w: nat): seq<Account> {
    seq(|jobs|, i requires 0 <= i < |jobs| => Account(jobs[i].file, jobs[i].action, [], With(w), true))
  }

  /** All retained items change hands. */
  function Reassigned(ledger: seq<Account>, w: nat): seq<Account> {
    seq(|ledger|, i requires 0 <= i < |ledger| =>
      if ledger[i].place == Retained then ledger[i].(place := With(w)) else ledger[i])
  }

  function Moved(ledger: seq<Account>, id: nat, place: Place): seq<Account> {
    if id < |ledger| then ledger[id := ledger[id].(place := place)] else ledger
  }

  function Charged(ledger: seq<Account>, id: nat, extent: Extent): seq<Account> {
    if id < |ledger| then ledger[id := ledger[id].(punched := ledger[id].punched + [extent])] else ledger
  }

  /** Worker `w` is done with its first item, which ends up at `place`. */
  function Settle(s: State, w: nat, place: Place): State
    requires BatchOf(s, w) != []
  {
    s.(workers := s.workers[w := Work(BatchOf(s, w)[1..], Between)], ledger := Moved(s.ledger, BatchOf(s, w)[0].id, place))
  }

  /** Worker `w` puts back its first item with the extents from `at` on. */
  function Keep(s: State, w: nat, at: nat): State
    requires BatchOf(s, w) != [] && at <= |Extents(BatchOf(s, w)[0].action)|
  {
    var item := BatchOf(s, w)[0];
    Settle(s, w, Retained).(retained := s.retained + [item.(action := Punch(Extents(item.action)[at..]))])
  }

  ghost function Apply(s: State, step: Step): State
    requires Enabled(s, step)
  {
    match step
    case Arrive(w, jobs) =>
      s.(workers := s.workers[w := Work(Numbered(jobs, |s.ledger|), Between)], ledger := s.ledger + Opened(jobs, w))
    case Retain(file, extents) =>
      s.(retained := s.retained + [Item(|s.ledger|, file, Punch(extents))],
         ledger := s.ledger + [Account(file, Punch(extents), [], Retained, false)])
    case Retry(w) =>
      s.(retained := [], workers := s.workers[w := Work(s.retained, Between)], ledger := Reassigned(s.ledger, w))
    case RemoveFile(w, ok) =>
      if ok then WithoutPath(Settle(s, w, Removed), BatchOf(s, w)[0].file) else Settle(s, w, RemoveFailed)
    case EnterMutationWindow(w) => s.(workers := s.workers[w := Work(BatchOf(s, w), Entered)])
    case Probe(w, answered) =>
      var file := BatchOf(s, w)[0].file;
      if answered && file in s.paths && LinkCount(s, file) <= 1 then
        s.(workers := s.workers[w := Work(BatchOf(s, w), Punching(0))])
      else if answered && file !in s.paths then Settle(s, w, Gone)
      else Keep(s, w, 0)
    case PunchNext(w, ok) =>
      var item, at := BatchOf(s, w)[0], StageOf(s, w).at;
      if ok then s.(workers := s.workers[w := Work(BatchOf(s, w), Punching(at + 1))],
                    ledger := Charged(s.ledger, item.id, Extents(item.action)[at]))
      else Keep(s, w, at)
    case LeaveMutationWindow(w) => Settle(s, w, Finished)
    case EnterLinkWindow => s.(linking := true)
    case Link(file) => s.(links := s.links[file := LinkCount(s, file) + 1])
    case LeaveLinkWindow => s.(linking := false)
    case Create(file) => s.(links := s.links[file := 1], paths := s.paths + {file})
    case RemovePath(file) => WithoutPath(s, file)
    case DropLink(file) => s.(links := s.links[file := LinkCount(s, file) - 1])
  }

  // --- the link gate ---

  /** The gate is only held for a reclaim, and only reclaims are retained. */
  ghost predicate Reclaiming(s: State) {
    && (forall w :: Mutating(s, w) ==> BatchOf(s, w) != [] && BatchOf(s, w)[0].action.Punch?)
    && (forall i :: 0 <= i < |s.retained| ==> s.retained[i].action.Punch?)
  }

  /** While a worker punches, the file is its own alone, and no checkpoint links. */
  ghost predicate Exclusive(s: State) {
    && Reclaiming(s)
    && (s.linking ==> forall w :: !Mutating(s, w))
    && (forall w :: StageOf(s, w).Punching? ==> BatchOf(s, w) != [] && LinkCount(s, BatchOf(s, w)[0].file) <= 1)
  }

  lemma WindowsStayApart(s: State, step: Step)
    requires Exclusive(s) && Enabled(s, step)
    ensures Apply(s, step).linking ==> forall w :: !Mutating(Apply(s, step), w)
  {
    if Apply(s, step).linking {
      forall w ensures !Mutating(Apply(s, step), w) {
        assert !Mutating(s, w);
      }
    }
  }

  lemma PunchersStayExclusive(s: State, step: Step, w: nat)
    requires Exclusive(s) && Enabled(s, step) && StageOf(Apply(s, step), w).Punching?
    ensures BatchOf(Apply(s, step), w) != []
    ensures LinkCount(Apply(s, step), BatchOf(Apply(s, step), w)[0].file) <= 1
  {
    if StageOf(s, w).Punching? {
      assert BatchOf(Apply(s, step), w) == BatchOf(s, w) && Mutating(s, w);
    } else {
      assert step.Probe? && step.worker == w;
    }
  }

  lemma StepKeepsReclaiming(s: State, step: Step)
    requires Reclaiming(s) && Enabled(s, step)
    ensures Reclaiming(Apply(s, step))
  {
    forall w | Mutating(Apply(s, step), w)
      ensures BatchOf(Apply(s, step), w) != [] && BatchOf(Apply(s, step), w)[0].action.Punch?
    {
      assert Mutating(s, w) || step == EnterMutationWindow(w);
    }
  }

  lemma StepKeepsExclusive(s: State, step: Step)
    requires Exclusive(s) && Enabled(s, step)
    ensures Exclusive(Apply(s, step))
  {
    WindowsStayApart(s, step);
    StepKeepsReclaiming(s, step);
    forall w | StageOf(Apply(s, step), w).Punching?
      ensures BatchOf(Apply(s, step), w) != [] && LinkCount(Apply(s, step), BatchOf(Apply(s, step), w)[0].file) <= 1
    {
      PunchersStayExclusive(s, step, w);
    }
  }

  lemma IsReclaiming(s: State)
    requires Exclusive(s)
    ensures Reclaiming(s)
  {
  }

  // --- names ---

  /** The names a file has besides its own. */
  function Others(s: State, file: nat): int {
    LinkCount(s, file) - if file in s.paths then 1 else 0
  }

  /** Only links and their removal change the other names; whoever removes the file's
      own name, it is one name less. */
  lemma StepKeepsNames(s: State, step: Step, file: nat)
    requires Enabled(s, step) && Others(s, file) >= 0
    ensures Others(Apply(s, step), file) >= 0
    ensures Others(Apply(s, step), file) ==
            Others(s, file) + (if step == Link(file) then 1 else 0) - if step == DropLink(file) then 1 else 0
  {
    hide Moved, Charged, Reassigned, Numbered, Opened;
    var t := Apply(s, step);
    if !step.RemoveFile? && !step.RemovePath? && !step.Link? && !step.DropLink? && !step.Create? {
      assert t.links == s.links && t.paths == s.paths;
    }
  }

  /** A drain has removed the file. */
  predicate WasRemoved(ledger: seq<Account>, file: nat) {
    exists id :: 0 <= id < |ledger| && ledger[id].file == file && ledger[id].place == Removed
  }

  lemma NoneRemoved(file: nat)
    ensures !WasRemoved([], file)
  {
  }

  // --- where items come from ---

  /** The jobs of the accounts that were drained, or of the others, in order. */
  function Origins(ledger: seq<Account>, drained: bool): seq<Job> {
    if ledger == [] then []
    else
      var last := ledger[|ledger| - 1];
      Origins(ledger[..|ledger| - 1], drained) + if last.drained == drained then [Job(last.file, last.action)] else []
  }

  /** The two ledgers differ at most in what happened to the items. */
  ghost predicate SameItems(l: seq<Account>, m: seq<Account>) {
    && |l| == |m|
    && forall i :: 0 <= i < |l| ==> l[i].file == m[i].file && l[i].action == m[i].action && l[i].drained == m[i].drained
  }

  lemma {:induction false} SameOrigins(l: seq<Account>, m: seq<Account>, drained: bool)
    requires SameItems(l, m)
    ensures Origins(l, drained) == Origins(m, drained)
  {
    if l != [] {
      SameOrigins(l[..|l| - 1], m[..|m| - 1], drained);
    }
  }

  lemma {:induction false} OriginsOpened(ledger: seq<Account>, jobs: seq<Job>, w: nat)
    ensures Origins(ledger + Opened(jobs, w), true) == Origins(ledger, true) + jobs
    ensures Origins(ledger + Opened(jobs, w), false) == Origins(ledger, false)
  {
    var all := ledger + Opened(jobs, w);
    if jobs == [] {
      assert all == ledger;
    } else {
      var front, last := jobs[..|jobs| - 1], jobs[|jobs| - 1];
      OriginsOpened(ledger, front, w);
      assert all[..|all| - 1] == ledger + Opened(front, w);
      assert all[|all| - 1] == Account(last.file, last.action, [], With(w), true);
      assert jobs == front + [last];
    }
  }

  lemma OriginsRetained(ledger: seq<Account>, file: nat, extents: seq<Extent>)
    ensures
      var l := ledger + [Account(file, Punch(extents), [], Retained, false)];
      && Origins(l, true) == Origins(ledger, true)
      && Origins(l, false) == Origins(ledger, false) + [Job(file, Punch(extents))]
  {
    assert (ledger + [Account(file, Punch(extents), [], Retained, false)])[..|ledger|] == ledger;
  }

  /** A step adds the items of a batch or a retained one, and never alters an item. */
  lemma StepKeepsOrigins(s: State, step: Step)
    requires Enabled(s, step)
    ensures
      var l, m := s.ledger, Apply(s, step).ledger;
      && Origins(m, true) == Origins(l, true) + (if step.Arrive? then step.jobs else [])
      && Origins(m, false) == Origins(l, false) + if step.Retain? then [Job(step.file, Punch(step.extents))] else []
  {
    hide Origins;
    var l, m := s.ledger, Apply(s, step).ledger;
    if step.Arrive? {
      OriginsOpened(l, step.jobs, step.worker);
    } else if step.Retain? {
      OriginsRetained(l, step.file, step.extents);
    } else {
      assert SameItems(l, m);
      SameOrigins(l, m, true);
      SameOrigins(l, m, false);
    }
  }

  // --- the ledger ---

  /** `items` are exactly the open items at `place`, each once, and each still asks
      for what its original asked for and has not been given; the first one has
      been given `at` extents of what it asks for. */
  ghost predicate Holds(ledger: seq<Account>, items: seq<Item>, place: Place, at: nat) {
    && (forall i, j :: 0 <= i < j < |items| ==> items[i].id != items[j].id)
    && (forall i :: 0 <= i < |items| ==> Owed(ledger, items[i], place, if i == 0 then at else 0))
    && (forall id :: 0 <= id < |ledger| && ledger[id].place == place ==> exists i :: 0 <= i < |items| && items[i].id == id)
  }

  ghost predicate Owed(ledger: seq<Account>, item: Item, place: Place, at: nat) {
    && item.id < |ledger| && ledger[item.id].place == place && ledger[item.id].file == item.file
    && ledger[item.id].action.Remove? == item.action.Remove? && at <= |Extents(item.action)|
    && Extents(ledger[item.id].action) == ledger[item.id].punched + Extents(item.action)[at..]
  }

  function Progress(s: State, w: nat): nat {
    if StageOf(s, w).Punching? then StageOf(s, w).at else 0
  }

  /** What was punched is always a prefix of what was asked; a finished item got it
      all; an unfinished one is held in exactly one place, with the rest; only items
      of vanished files are given up; a removed file is not there. */
  ghost predicate Balanced(s: State) {
    && Holds(s.ledger, s.retained, Retained, 0)
    && (forall w :: Holds(s.ledger, BatchOf(s, w), With(w), Progress(s, w)))
    && Settled(s.ledger, s.paths)
  }

  ghost predicate Settled(ledger: seq<Account>, paths: set<nat>) {
    forall id :: 0 <= id < |ledger| ==>
      && ledger[id].punched <= Extents(ledger[id].action)
      && (ledger[id].place == Finished ==> ledger[id].action == Punch(ledger[id].punched))
      && (ledger[id].place in {Gone, Removed} ==> ledger[id].file !in paths)
      && (ledger[id].place in {Removed, RemoveFailed} ==> ledger[id].action.Remove?)
  }

  /** Two ledgers agree on who is at `place`. */
  ghost predicate Agree(l: seq<Account>, m: seq<Account>, place: Place) {
    && (forall id :: 0 <= id < |l| && l[id].place == place ==> id < |m| && m[id] == l[id])
    && (forall id :: 0 <= id < |m| && m[id].place == place ==> id < |l| && l[id].place == place)
  }

  lemma HoldsElsewhere(l: seq<Account>, m: seq<Account>, items: seq<Item>, place: Place, at: nat)
    requires Holds(l, items, place, at) && Agree(l, m, place)
    ensures Holds(m, items, place, at)
  {
    forall i | 0 <= i < |items| ensures Owed(m, items[i], place, if i == 0 then at else 0) {
      assert Owed(l, items[i], place, if i == 0 then at else 0);
    }
  }

  lemma HoldsOpened(ledger: seq<Account>, jobs: seq<Job>, w: nat)
    requires forall id :: 0 <= id < |ledger| ==> ledger[id].place != With(w)
    ensures Holds(ledger + Opened(jobs, w), Numbered(jobs, |ledger|), With(w), 0)
  {
    var l, items := ledger + Opened(jobs, w), Numbered(jobs, |ledger|);
    forall i | 0 <= i < |items| ensures Owed(l, items[i], With(w), 0) {
      assert l[|ledger| + i] == Opened(jobs, w)[i];
    }
    forall id | 0 <= id < |l| && l[id].place == With(w) ensures exists i :: 0 <= i < |items| && items[i].id == id {
      assert items[id - |ledger|].id == id;
    }
  }

  /** The first item leaves. */
  lemma HoldsTail(l: seq<Account>, items: seq<Item>, place: Place, at: nat, next: Place)
    requires Holds(l, items, place, at) && items != [] && next != place
    ensures Holds(Moved(l, items[0].id, next), items[1..], place, 0)
  {
    var m := Moved(l, items[0].id, next);
    assert Owed(l, items[0], place, at);
    forall i | 0 <= i < |items[1..]| ensures Owed(m, items[1..][i], place, 0) {
      assert items[1..][i] == items[i + 1] && Owed(l, items[i + 1], place, 0);
    }
    forall id | 0 <= id < |m| && m[id].place == place ensures exists i :: 0 <= i < |items[1..]| && items[1..][i].id == id {
      var i :| 0 <= i < |items| && items[i].id == id;
      assert items[1..][i - 1].id == id;
    }
  }

  /** An item joins. */
  lemma HoldsAppend(l: seq<Account>, m: seq<Account>, items: seq<Item>, place: Place, item: Item)
    requires Holds(l, items, place, 0) && Owed(m, item, place, 0)
    requires item.id >= |l| || l[item.id].place != place
    requires |l| <= |m| && forall id :: 0 <= id < |m| && id != item.id ==> id < |l| && m[id] == l[id]
    ensures Holds(m, items + [item], place, 0)
  {
    var more := items + [item];
    forall i | 0 <= i < |more| ensures Owed(m, more[i], place, 0) {
      if i < |items| {
        assert Owed(l, items[i], place, 0);
      }
    }
    forall i, j | 0 <= i < j < |more| ensures more[i].id != more[j].id {
      assert Owed(l, items[i], place, 0);
    }
    forall id | 0 <= id < |m| && m[id].place == place ensures exists i :: 0 <= i < |more| && more[i].id == id {
      if id == item.id {
        assert more[|items|].id == id;
      } else {
        var i :| 0 <= i < |items| && items[i].id == id;
        assert more[i].id == id;
      }
    }
  }

  /** The first item is given one more extent. */
  lemma HoldsCharged(l: seq<Account>, items: seq<Item>, place: Place, at: nat)
    requires Holds(l, items, place, at) && items != [] && at < |Extents(items[0].action)|
    ensures Holds(Charged(l, items[0].id, Extents(items[0].action)[at]), items, place, at + 1)
  {
    var asked := Extents(items[0].action);
    var m := Charged(l, items[0].id, asked[at]);
    assert Owed(l, items[0], place, at);
    assert asked[at..] == [asked[at]] + asked[at + 1..];
    forall i | 0 <= i < |items| ensures Owed(m, items[i], place, if i == 0 then at + 1 else 0) {
      assert Owed(l, items[i], place, if i == 0 then at else 0);
    }
  }

  lemma HoldsReassigned(l: seq<Account>, items: seq<Item>, w: nat)
    requires Holds(l, items, Retained, 0)
    requires forall id :: 0 <= id < |l| ==> l[id].place != With(w)
    ensures Holds(Reassigned(l, w), items, With(w), 0)
    ensures Holds(Reassigned(l, w), [], Retained, 0)
  {
    var m := Reassigned(l, w);
    forall i | 0 <= i < |items| ensures Owed(m, items[i], With(w), 0) {
      assert Owed(l, items[i], Retained, 0);
    }
  }

  lemma NewWorkerHasNothing(s: State, w: nat)
    requires Balanced(s) && w !in s.workers
    ensures forall id :: 0 <= id < |s.ledger| ==> s.ledger[id].place != With(w)
  {
    assert Holds(s.ledger, BatchOf(s, w), With(w), Progress(s, w));
  }

  lemma ArriveBalanced(s: State, w: nat, jobs: seq<Job>)
    requires Balanced(s) && w !in s.workers
    ensures Balanced(Apply(s, Arrive(w, jobs)))
  {
    var t := Apply(s, Arrive(w, jobs));
    NewWorkerHasNothing(s, w);
    HoldsOpened(s.ledger, jobs, w);
    HoldsElsewhere(s.ledger, t.ledger, s.retained, Retained, 0);
    forall v | v != w ensures Holds(t.ledger, BatchOf(t, v), With(v), Progress(t, v)) {
      HoldsElsewhere(s.ledger, t.ledger, BatchOf(s, v), With(v), Progress(s, v));
    }
  }

  lemma SettledMore(ledger: seq<Account>, account: Account, paths: set<nat>)
    requires Settled(ledger, paths) && account.punched == [] && !Ended(account.place)
    ensures Settled(ledger + [account], paths)
  {
  }

  lemma SettledMoved(ledger: seq<Account>, id: nat, place: Place, paths: set<nat>)
    requires Settled(ledger, paths) && id < |ledger|
    requires place == Finished ==> ledger[id].action == Punch(ledger[id].punched)
    requires place == Gone || place == Removed ==> ledger[id].file !in paths
    requires place == Removed || place == RemoveFailed ==> ledger[id].action.Remove?
    ensures Settled(Moved(ledger, id, place), paths)
  {
  }

  lemma RetainBalanced(s: State, file: nat, extents: seq<Extent>)
    requires Balanced(s)
    ensures Balanced(Apply(s, Retain(file, extents)))
  {
    hide Holds, Settled;
    var t := Apply(s, Retain(file, extents));
    SettledMore(s.ledger, Account(file, Punch(extents), [], Retained, false), s.paths);
    HoldsAppend(s.ledger, t.ledger, s.retained, Retained, Item(|s.ledger|, file, Punch(extents)));
    forall v ensures Holds(t.ledger, BatchOf(t, v), With(v), Progress(t, v)) {
      HoldsElsewhere(s.ledger, t.ledger, BatchOf(s, v), With(v), Progress(s, v));
    }
  }

  lemma RetryBalanced(s: State, w: nat)
    requires Balanced(s) && w !in s.workers
    ensures Balanced(Apply(s, Retry(w)))
  {
    var t := Apply(s, Retry(w));
    NewWorkerHasNothing(s, w);
    HoldsReassigned(s.ledger, s.retained, w);
    forall v | v != w ensures Holds(t.ledger, BatchOf(t, v), With(v), Progress(t, v)) {
      HoldsElsewhere(s.ledger, t.ledger, BatchOf(s, v), With(v), Progress(s, v));
    }
  }

  /** The workers' side of putting an item down, wherever it goes. */
  lemma SettleHolds(s: State, w: nat, place: Place)
    requires Balanced(s) && BatchOf(s, w) != [] && !place.With?
    ensures var t := Settle(s, w, place); forall v :: Holds(t.ledger, BatchOf(t, v), With(v), Progress(t, v))
  {
    var t, item := Settle(s, w, place), BatchOf(s, w)[0];
    assert Owed(s.ledger, item, With(w), Progress(s, w)) by {
      assert Holds(s.ledger, BatchOf(s, w), With(w), Progress(s, w));
    }
    forall v ensures Holds(t.ledger, BatchOf(t, v), With(v), Progress(t, v)) {
      if v == w {
        HoldsTail(s.ledger, BatchOf(s, w), With(w), Progress(s, w), place);
      } else {
        HoldsElsewhere(s.ledger, t.ledger, BatchOf(s, v), With(v), Progress(s, v));
      }
    }
  }

  lemma SettleBalanced(s: State, w: nat, place: Place)
    requires Balanced(s) && BatchOf(s, w) != []
    requires
      || (place == Gone && BatchOf(s, w)[0].file !in s.paths)
      || (place == RemoveFailed && BatchOf(s, w)[0].action.Remove?)
      || (place == Finished && BatchOf(s, w)[0].action.Punch? && Progress(s, w) == |Extents(BatchOf(s, w)[0].action)|)
    ensures Balanced(Settle(s, w, place))
  {
    SettleHolds(s, w, place);
    var item := BatchOf(s, w)[0];
    assert Owed(s.ledger, item, With(w), Progress(s, w)) by {
      assert Holds(s.ledger, BatchOf(s, w), With(w), Progress(s, w));
    }
    hide Holds, Settled;
    SettledMoved(s.ledger, item.id, place, s.paths);
    HoldsElsewhere(s.ledger, Settle(s, w, place).ledger, s.retained, Retained, 0);
  }

  lemma RemoveBalanced(s: State, w: nat)
    requires Balanced(s) && Enabled(s, RemoveFile(w, true))
    ensures Balanced(Apply(s, RemoveFile(w, true)))
  {
    var t := Apply(s, RemoveFile(w, true));
    SettleHolds(s, w, Removed);
    assert Owed(s.ledger, BatchOf(s, w)[0], With(w), Progress(s, w)) by {
      assert Holds(s.ledger, BatchOf(s, w), With(w), Progress(s, w));
    }
    HoldsElsewhere(s.ledger, t.ledger, s.retained, Retained, 0);
    forall v ensures Holds(t.ledger, BatchOf(t, v), With(v), Progress(t, v)) {
      assert BatchOf(t, v) == BatchOf(Settle(s, w, Removed), v);
    }
  }

  lemma LeaveBalanced(s: State, w: nat)
    requires Balanced(s) && Reclaiming(s) && Enabled(s, LeaveMutationWindow(w))
    ensures Balanced(Apply(s, LeaveMutationWindow(w)))
  {
    SettleBalanced(s, w, Finished);
  }

  lemma KeepBalanced(s: State, w: nat)
    requires Balanced(s) && BatchOf(s, w) != [] && BatchOf(s, w)[0].action.Punch?
    requires Progress(s, w) <= |Extents(BatchOf(s, w)[0].action)|
    ensures Balanced(Keep(s, w, Progress(s, w)))
  {
    var t, item, at := Keep(s, w, Progress(s, w)), BatchOf(s, w)[0], Progress(s, w);
    SettleHolds(s, w, Retained);
    assert Owed(s.ledger, item, With(w), at) by {
      assert Holds(s.ledger, BatchOf(s, w), With(w), at);
    }
    HoldsAppend(s.ledger, t.ledger, s.retained, Retained, item.(action := Punch(Extents(item.action)[at..])));
    forall v ensures Holds(t.ledger, BatchOf(t, v), With(v), Progress(t, v)) {
      assert BatchOf(t, v) == BatchOf(Settle(s, w, Retained), v);
    }
  }

  lemma PunchBalanced(s: State, w: nat)
    requires Balanced(s) && Enabled(s, PunchNext(w, true))
    ensures Balanced(Apply(s, PunchNext(w, true)))
  {
    var t, item, at := Apply(s, PunchNext(w, true)), BatchOf(s, w)[0], Progress(s, w);
    assert Owed(s.ledger, item, With(w), at) by {
      assert Holds(s.ledger, BatchOf(s, w), With(w), at);
    }
    assert Extents(item.action)[at..] == [Extents(item.action)[at]] + Extents(item.action)[at + 1..];
    HoldsElsewhere(s.ledger, t.ledger, s.retained, Retained, 0);
    forall v ensures Holds(t.ledger, BatchOf(t, v), With(v), Progress(t, v)) {
      if v == w {
        HoldsCharged(s.ledger, BatchOf(s, w), With(w), at);
      } else {
        HoldsElsewhere(s.ledger, t.ledger, BatchOf(s, v), With(v), Progress(s, v));
      }
    }
  }

  /** Steps that leave every item where it is. */
  lemma IdleBalanced(s: State, t: State)
    requires Balanced(s) && t.ledger == s.ledger && t.retained == s.retained
    requires forall w :: BatchOf(t, w) == BatchOf(s, w) && Progress(t, w) == Progress(s, w)
    requires forall id :: 0 <= id < |s.ledger| && s.ledger[id].file in t.paths ==> s.ledger[id].file in s.paths
    ensures Balanced(t)
  {
    forall w ensures Holds(t.ledger, BatchOf(t, w), With(w), Progress(t, w)) {
      assert Holds(s.ledger, BatchOf(s, w), With(w), Progress(s, w));
    }
  }

  /** Every step keeps the books. */
  lemma StepKeepsBalanced(s: State, step: Step)
    requires Balanced(s) && Reclaiming(s) && Enabled(s, step)
    ensures Balanced(Apply(s, step))
  {
    hide Balanced;
    match step {
      case Arrive(w, jobs) => ArriveBalanced(s, w, jobs);
      case Retain(file, extents) => RetainBalanced(s, file, extents);
      case Retry(w) => RetryBalanced(s, w);
      case RemoveFile(w, ok) =>
        if ok {
          RemoveBalanced(s, w);
        } else {
          SettleBalanced(s, w, RemoveFailed);
        }
      case Probe(w, answered) => ProbeBalanced(s, w, answered);
      case PunchNext(w, ok) =>
        if ok {
          PunchBalanced(s, w);
        } else {
          KeepBalanced(s, w);
        }
      case LeaveMutationWindow(w) => LeaveBalanced(s, w);
      case _ => IdleBalanced(s, Apply(s, step));
    }
  }

  lemma ProbeBalanced(s: State, w: nat, answered: bool)
    requires Balanced(s) && Reclaiming(s) && Enabled(s, Probe(w, answered))
    ensures Balanced(Apply(s, Probe(w, answered)))
  {
    hide Balanced;
    var file := BatchOf(s, w)[0].file;
    if answered && file in s.paths && LinkCount(s, file) <= 1 {
      IdleBalanced(s, Apply(s, Probe(w, answered)));
    } else if answered && file !in s.paths {
      SettleBalanced(s, w, Gone);
    } else {
      KeepBalanced(s, w);
    }
  }

  // --- removals ---

  /** The removed files of two ledgers are the same, but for that of item `id`. */
  ghost predicate RemovedBut(l: seq<Account>, m: seq<Account>, id: nat) {
    && |l| <= |m|
    && (forall i :: 0 <= i < |l| && i != id ==> m[i].file == l[i].file && (m[i].place == Removed <==> l[i].place == Removed))
    && (forall i :: |l| <= i < |m| ==> m[i].place != Removed)
  }

  lemma SettledElsewhere(s: State, w: nat, place: Place)
    requires Balanced(s) && BatchOf(s, w) != []
    ensures
      var id, m := BatchOf(s, w)[0].id, Settle(s, w, place).ledger;
      && RemovedBut(s.ledger, m, id) && id < |s.ledger| && s.ledger[id].place == With(w)
      && m[id] == s.ledger[id].(place := place) && s.ledger[id].file == BatchOf(s, w)[0].file
  {
    assert Owed(s.ledger, BatchOf(s, w)[0], With(w), Progress(s, w)) by {
      assert Holds(s.ledger, BatchOf(s, w), With(w), Progress(s, w));
    }
  }

  lemma RemovedSame(l: seq<Account>, m: seq<Account>, id: nat, file: nat)
    requires RemovedBut(l, m, id)
    requires id < |l| ==> l[id].place != Removed && m[id].place != Removed
    ensures WasRemoved(m, file) <==> WasRemoved(l, file)
  {
  }

  /** A removal by a drain is noted, and nothing else is. */
  lemma StepKeepsRemoved(s: State, step: Step, file: nat)
    requires Enabled(s, step) && Balanced(s)
    ensures WasRemoved(Apply(s, step).ledger, file) <==>
            WasRemoved(s.ledger, file) || (step.RemoveFile? && step.ok && BatchOf(s, step.worker)[0].file == file)
  {
    hide Balanced, WasRemoved;
    var l, m := s.ledger, Apply(s, step).ledger;
    if step.RemoveFile? && step.ok {
      SettledElsewhere(s, step.worker, Removed);
      RemovedMore(l, m, BatchOf(s, step.worker)[0].id, file);
    } else if step.RemoveFile? {
      SettledElsewhere(s, step.worker, RemoveFailed);
      RemovedSame(l, m, BatchOf(s, step.worker)[0].id, file);
    } else if step.Probe? || step.LeaveMutationWindow? {
      SettledElsewhere(s, step.worker, Gone);
      SettledElsewhere(s, step.worker, Retained);
      SettledElsewhere(s, step.worker, Finished);
      RemovedSame(l, m, BatchOf(s, step.worker)[0].id, file);
    } else if step.PunchNext? {
      SettledElsewhere(s, step.worker, Retained);
      RemovedSame(l, m, BatchOf(s, step.worker)[0].id, file);
    } else {
      RemovedSame(l, m, |l|, file);
    }
  }

  lemma RemovedMore(l: seq<Account>, m: seq<Account>, id: nat, file: nat)
    requires RemovedBut(l, m, id) && id < |l| && l[id].place != Removed
    requires m[id].place == Removed && m[id].file == l[id].file
    ensures WasRemoved(m, file) <==> WasRemoved(l, file) || l[id].file == file
  {
  }

  /** A file comes with its creation and goes with its removal. */
  lemma StepKeepsPaths(s: State, step: Step, file: nat)
    requires Enabled(s, step) && Balanced(s) && (file in s.paths ==> file in s.links)
    ensures
      var t := Apply(s, step);
      && (file in t.paths ==> file in t.links)
      && (file in t.links <==> file in s.links || step == Create(file))
      && (file in t.paths <==>
            && (file in s.paths || step == Create(file)) && step != RemovePath(file)
            && (WasRemoved(t.ledger, file) ==> WasRemoved(s.ledger, file)))
      && (WasRemoved(s.ledger, file) ==> WasRemoved(t.ledger, file))
      && (WasRemoved(t.ledger, file) ==> WasRemoved(s.ledger, file) || file in s.paths)
      && (step == RemovePath(file) ==> file in s.paths) && (step == Create(file) ==> file !in s.links)
  {
    hide Balanced, WasRemoved, Moved, Charged, Reassigned, Numbered, Opened;
    StepKeepsRemoved(s, step, file);
    if WasRemoved(s.ledger, file) {
      RemovedIsGone(s, file);
    }
  }

  lemma RemovedIsGone(s: State, file: nat)
    requires Balanced(s) && WasRemoved(s.ledger, file)
    ensures file !in s.paths
  {
  }
}
