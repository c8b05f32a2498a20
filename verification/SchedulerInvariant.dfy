/** What every step of the scheduler keeps, and what therefore holds in every reachable state. */
module SchedulerInvariant {
  import opened Options
  import opened Tasks
  import opened Scheduler

  // ---------- the parts of the invariant

  /** Ids are unique, and below the next id to be given out. */
  ghost predicate IdsOk(s: State) {
    && (forall k | k in s.data :: s.data[k].id == k && k < s.nextTaskID)
    && (forall k | k in s.running :: s.running[k].id == k && k !in s.data)
  }

  /** A held entry has left the queue, and is listed as running exactly from dequeue to removal. */
  ghost predicate HeldBy(s: State, w: nat)
    requires w < |s.workers|
  {
    var p := s.workers[w].at;
    Holding(p) ==>
      && p.task.id < s.nextTaskID && p.task.id !in s.data
      && (Listed(p) ==> p.task.id in s.running && s.running[p.task.id] == p.task && p.task.assignedWorker == Some(w))
      && (!Listed(p) ==> p.task.id !in s.running)
  }

  ghost predicate HoldersApart(s: State, w: nat, v: nat)
    requires w < |s.workers| && v < |s.workers|
  {
    var p, q := s.workers[w].at, s.workers[v].at;
    Holding(p) && Holding(q) && w != v ==> p.task.id != q.task.id
  }

  ghost predicate RunsOn(s: State, k: nat, w: nat) {
    w < |s.workers| && Listed(s.workers[w].at) && s.workers[w].at.task.id == k
  }

  ghost predicate HeldOk(s: State) {
    && (forall w | 0 <= w < |s.workers| :: HeldBy(s, w))
    && (forall w, v | 0 <= w < |s.workers| && 0 <= v < |s.workers| :: HoldersApart(s, w, v))
    && (forall k | k in s.running ::
        s.running[k].assignedWorker.Some? && RunsOn(s, k, s.running[k].assignedWorker.value))
  }

  /** The state a worker shows to a dump of the scheduler. */
  function Displayed(p: Position): WorkerState {
    match p
    case Executing(_) => WorkerRunning
    case Finishing(_) => WorkerScheduling
    case Removed(_) => WorkerScheduling
    case _ => WorkerIdle
  }

  ghost predicate WorkersOk(s: State) {
    && |s.workers| <= s.numWorkers
    && forall w | 0 <= w < |s.workers| :: s.workers[w].state == Displayed(s.workers[w].at)
  }

  /** The timers still to come are exactly the pending entries. */
  ghost predicate TimersOk(s: State) {
    && s.armed !! s.unarmed
    && (forall k :: k in s.armed + s.unarmed <==> k in s.data && s.data[k].state.Pending?)
  }

  ghost predicate IsReady(s: State, k: nat) {
    (k in s.data && s.data[k].state.Ready?) || k in s.running
  }

  ghost function Live(s: State, k: nat): Task
    requires IsReady(s, k)
  {
    if k in s.data then s.data[k] else s.running[k]
  }

  /** Of each kind of work on each source name at most one entry is ready, in the queue and running together. */
  ghost predicate ReadyOk(s: State) {
    && (forall k | k in s.running :: s.running[k].state.Ready?)
    && (forall j, k | IsReady(s, j) && IsReady(s, k) && SameWork(Live(s, j), Live(s, k)) :: j == k)
  }

  ghost function Runnable(s: State): set<nat> {
    set k | k in s.data && !s.data[k].state.Pending?
  }

  ghost function SignalledWorkers(s: State): set<nat> {
    set w | 0 <= w < |s.workers| && s.workers[w].at.Signalled?
  }

  ghost predicate SomeoneParked(s: State) {
    exists w :: 0 <= w < |s.workers| && s.workers[w].at.Parked?
  }

  /** No lost wakeup. */
  ghost predicate WakeOk(s: State) {
    SomeoneParked(s) ==> |Runnable(s)| <= |SignalledWorkers(s)|
  }

  predicate InChain(t: Task, i: nat, kind: TaskKind) {
    t.reason.Scheduled? && t.source.index == i && t.kind == kind
  }

  ghost function QueuedChain(s: State, i: nat, kind: TaskKind): set<nat> {
    set k | k in s.data && InChain(s.data[k], i, kind)
  }

  ghost function HeldChain(s: State, i: nat, kind: TaskKind): set<nat> {
    set w | 0 <= w < |s.workers| && Holding(s.workers[w].at) && InChain(s.workers[w].at.task, i, kind)
  }

  /** How many scheduled entries of a kind a source has, in the queue and held by workers. */
  ghost function ChainCount(s: State, i: nat, kind: TaskKind): nat {
    |QueuedChain(s, i, kind)| + |HeldChain(s, i, kind)|
  }

  ghost predicate Started(s: State, i: nat, kind: TaskKind) {
    i < |s.sources| &&
    match s.boot
    case EnqueueRefresh(j) => i < j
    case EnqueueAuth(j) => i < j || (i == j && kind.Refresh?)
    case StartWorkers => true
  }

  ghost function Retired(s: State, i: nat, kind: TaskKind): nat {
    if kind.Auth? && i in s.retired then 1 else 0
  }

  /** Once a chain is started it has one entry, until an auth chain is retired. */
  ghost predicate ChainOk(s: State, i: nat, kind: TaskKind) {
    ChainCount(s, i, kind) + Retired(s, i, kind) == if Started(s, i, kind) then 1 else 0
  }

  ghost predicate ChainsOk(s: State) {
    forall i: nat, kind :: ChainOk(s, i, kind)
  }

  ghost predicate KnownSource(s: State, t: Task) {
    t.source.index < |s.sources| && s.sources[t.source.index] == t.source
  }

  ghost predicate SourcesOk(s: State) {
    && (forall i | 0 <= i < |s.sources| :: s.sources[i].index == i)
    && (forall k | k in s.data :: KnownSource(s, s.data[k]))
    && (forall w | 0 <= w < |s.workers| && Holding(s.workers[w].at) :: KnownSource(s, s.workers[w].at.task))
    && (!s.boot.StartWorkers? ==> s.boot.source < |s.sources|)
  }

  ghost predicate Invariant(s: State) {
    IdsOk(s) && HeldOk(s) && WorkersOk(s) && TimersOk(s) && ReadyOk(s) && WakeOk(s) && ChainsOk(s) && SourcesOk(s)
  }

  // ---------- the first entry of the queue

  lemma {:induction false} FirstExists(data: map<nat, Task>)
    requires data != map[] && forall k | k in data :: data[k].id == k
    ensures exists id :: IsFirst(data, id)
  {
    var x :| x in data;
    var rest := data - {x};
    assert forall k | k in data && k != x :: k in rest;
    if rest == map[] {
      assert IsFirst(data, x);
    } else {
      FirstExists(rest);
      var y :| IsFirst(rest, y);
      forall k | k in rest && k != y
        ensures Before(data[x], data[y]) ==> Before(data[x], data[k])
      {
        BeforeIsStrictTotalOrder(data[x], data[y], data[k]);
      }
      BeforeIsStrictTotalOrder(data[x], data[y], data[y]);
      assert IsFirst(data, if Before(data[x], data[y]) then x else y);
    }
  }

  /** A worker goes to sleep only when nothing is runnable. */
  lemma ParkMeansNothingRunnable(s: State, w: nat)
    requires IdsOk(s) && Enabled(s, Park(w))
    ensures Runnable(s) == {}
  {
    if s.data != map[] {
      FirstExists(s.data);
      var id :| IsFirst(s.data, id);
      forall k | k in s.data
        ensures s.data[k].state.Pending?
      {
      }
    }
  }

  // ---------- what inserting an entry keeps

  ghost predicate Insertable(s: State, t: Task) {
    t.state.Pending? && KnownSource(s, t)
  }

  lemma EnqueuedIds(s: State, t: Task)
    requires IdsOk(s) && HeldOk(s)
    ensures IdsOk(Enqueued(s, t)) && HeldOk(Enqueued(s, t))
  {
    var s' := Enqueued(s, t);
    forall k | k in s.running
      ensures k < s.nextTaskID && s'.running[k].assignedWorker.Some?
              && RunsOn(s', k, s'.running[k].assignedWorker.value)
    {
      assert RunsOn(s, k, s.running[k].assignedWorker.value);
      assert HeldBy(s, s.running[k].assignedWorker.value);
    }
    forall w | 0 <= w < |s'.workers|
      ensures HeldBy(s', w)
    {
      assert HeldBy(s, w);
    }
    forall w, v | 0 <= w < |s'.workers| && 0 <= v < |s'.workers|
      ensures HoldersApart(s', w, v)
    {
      assert HoldersApart(s, w, v);
    }
  }

  lemma EnqueuedTimers(s: State, t: Task)
    requires IdsOk(s) && TimersOk(s) && t.state.Pending?
    ensures TimersOk(Enqueued(s, t))
  {
  }

  lemma EnqueuedReady(s: State, t: Task)
    requires IdsOk(s) && HeldOk(s) && ReadyOk(s) && t.state.Pending?
    ensures ReadyOk(Enqueued(s, t))
  {
    var s' := Enqueued(s, t);
    EnqueuedIds(s, t);
    forall k
      ensures IsReady(s', k) <==> IsReady(s, k)
      ensures IsReady(s, k) ==> Live(s', k) == Live(s, k)
    {
    }
  }

  lemma EnqueuedWake(s: State, t: Task)
    requires IdsOk(s) && WakeOk(s) && t.state.Pending?
    ensures WakeOk(Enqueued(s, t))
  {
    assert Runnable(Enqueued(s, t)) == Runnable(s);
    assert SignalledWorkers(Enqueued(s, t)) == SignalledWorkers(s);
  }

  lemma EnqueuedChain(s: State, t: Task, i: nat, kind: TaskKind)
    requires IdsOk(s)
    ensures s.nextTaskID !in QueuedChain(s, i, kind)
    ensures QueuedChain(Enqueued(s, t), i, kind)
         == QueuedChain(s, i, kind) + if InChain(t, i, kind) then {s.nextTaskID} else {}
  {
    var s', k := Enqueued(s, t), s.nextTaskID;
    assert InChain(t.(id := k), i, kind) <==> InChain(t, i, kind);
    hide InChain;
    forall j
      ensures j in QueuedChain(s', i, kind) <==> j in QueuedChain(s, i, kind) || (j == k && InChain(t, i, kind))
    {
    }
  }

  lemma EnqueuedCount(s: State, t: Task, i: nat, kind: TaskKind)
    requires IdsOk(s)
    ensures ChainCount(Enqueued(s, t), i, kind) == ChainCount(s, i, kind) + if InChain(t, i, kind) then 1 else 0
  {
    assert HeldChain(Enqueued(s, t), i, kind) == HeldChain(s, i, kind);
    hide QueuedChain, HeldChain, InChain, Enqueued, IdsOk;
    EnqueuedChain(s, t, i, kind);
  }

  lemma EnqueuedRest(s: State, t: Task)
    requires IdsOk(s) && SourcesOk(s) && WorkersOk(s) && KnownSource(s, t)
    ensures SourcesOk(Enqueued(s, t)) && WorkersOk(Enqueued(s, t))
  {
  }

  /** Everything but the chain counts. */
  ghost predicate Base(s: State) {
    IdsOk(s) && HeldOk(s) && WorkersOk(s) && TimersOk(s) && ReadyOk(s) && WakeOk(s) && SourcesOk(s)
  }

  lemma EnqueuedBase(s: State, t: Task)
    requires Base(s) && Insertable(s, t)
    ensures Base(Enqueued(s, t))
  {
    hide IdsOk, HeldOk, WorkersOk, TimersOk, ReadyOk, WakeOk, SourcesOk, KnownSource, Enqueued;
    EnqueuedIds(s, t);
    EnqueuedTimers(s, t);
    EnqueuedReady(s, t);
    EnqueuedWake(s, t);
    EnqueuedRest(s, t);
  }

  // ---------- boot and ad-hoc steps

  lemma RebootBase(s: State, b: Boot, r: set<nat>)
    requires Base(s) && (!b.StartWorkers? ==> b.source < |s.sources|)
    ensures Base(s.(boot := b, retired := r))
  {
    var s' := s.(boot := b, retired := r);
    assert IdsOk(s') && WorkersOk(s') && TimersOk(s') && SourcesOk(s');
    SameQueueHeld(s, s');
    SameQueueReady(s, s');
    SameQueueWake(s, s');
  }

  lemma SameQueueHeld(s: State, s': State)
    requires s'.data == s.data && s'.running == s.running && s'.workers == s.workers && s'.nextTaskID == s.nextTaskID
    requires HeldOk(s)
    ensures HeldOk(s')
  {
    forall w | 0 <= w < |s'.workers|
      ensures HeldBy(s', w)
    {
      assert HeldBy(s, w);
    }
    forall w, v | 0 <= w < |s'.workers| && 0 <= v < |s'.workers|
      ensures HoldersApart(s', w, v)
    {
      assert HoldersApart(s, w, v);
    }
    forall k | k in s'.running
      ensures RunsOn(s', k, s'.running[k].assignedWorker.value)
    {
      assert RunsOn(s, k, s.running[k].assignedWorker.value);
    }
  }

  lemma SameQueueReady(s: State, s': State)
    requires s'.data == s.data && s'.running == s.running && ReadyOk(s)
    ensures ReadyOk(s')
  {
    forall k
      ensures IsReady(s', k) <==> IsReady(s, k)
      ensures IsReady(s, k) ==> Live(s', k) == Live(s, k)
    {
    }
  }

  lemma SameQueueWake(s: State, s': State)
    requires s'.data == s.data && s'.workers == s.workers && WakeOk(s)
    ensures WakeOk(s')
  {
    assert Runnable(s') == Runnable(s) && SignalledWorkers(s') == SignalledWorkers(s);
  }

  lemma SameQueueCount(s: State, s': State, i: nat, kind: TaskKind)
    requires s'.data == s.data && s'.workers == s.workers
    ensures ChainCount(s', i, kind) == ChainCount(s, i, kind)
  {
    assert QueuedChain(s', i, kind) == QueuedChain(s, i, kind) && HeldChain(s', i, kind) == HeldChain(s, i, kind);
  }

  lemma BootRefreshKeeps(s: State, at: int)
    requires Invariant(s) && Enabled(s, BootRefresh(at))
    ensures Invariant(Do(s, BootRefresh(at)))
  {
    hide IdsOk, HeldOk, WorkersOk, TimersOk, ReadyOk, WakeOk, ChainCount, Enqueued;
    var t := NewTask(Refresh, s.sources[s.boot.source], at, Scheduled);
    var s1 := Enqueued(s, t);
    var s' := Do(s, BootRefresh(at));
    EnqueuedShape(s, t);
    EnqueuedBase(s, t);
    RebootBase(s1, NextBoot(s), s1.retired);
    forall i: nat, kind
      ensures ChainOk(s', i, kind)
    {
      assert ChainOk(s, i, kind);
      EnqueuedCount(s, t, i, kind);
      SameQueueCount(s1, s', i, kind);
    }
  }

  lemma EnqueuedShape(s: State, t: Task)
    ensures var s' := Enqueued(s, t);
            && s'.sources == s.sources && s'.retired == s.retired && s'.boot == s.boot && s'.workers == s.workers
            && s'.running == s.running && s'.numWorkers == s.numWorkers && s'.armed == s.armed
  {
  }

  lemma BootAuthKeeps(s: State, at: int, skip: bool)
    requires Invariant(s) && Enabled(s, BootAuth(at, skip))
    ensures Invariant(Do(s, BootAuth(at, skip)))
  {
    hide IdsOk, HeldOk, WorkersOk, TimersOk, ReadyOk, WakeOk, ChainCount, Enqueued;
    var s' := Do(s, BootAuth(at, skip));
    var j := s.boot.source;
    if skip {
      RebootBase(s, NextBoot(s), s.retired + {j});
      forall i: nat, kind
        ensures ChainOk(s', i, kind)
      {
        assert ChainOk(s, i, kind);
        SameQueueCount(s, s', i, kind);
      }
    } else {
      var t := NewTask(Auth, s.sources[j], at, Scheduled);
      var s1 := Enqueued(s, t);
      EnqueuedShape(s, t);
      EnqueuedBase(s, t);
      RebootBase(s1, NextBoot(s), s1.retired);
      forall i: nat, kind
        ensures ChainOk(s', i, kind)
      {
        assert ChainOk(s, i, kind);
        EnqueuedCount(s, t, i, kind);
        SameQueueCount(s1, s', i, kind);
      }
    }
  }

  lemma AdhocKeeps(s: State, i: nat, at: int)
    requires Invariant(s) && Enabled(s, AdhocRefresh(i, at))
    ensures Invariant(Do(s, AdhocRefresh(i, at)))
  {
    hide IdsOk, HeldOk, WorkersOk, TimersOk, ReadyOk, WakeOk, ChainCount, Enqueued;
    var t := NewTask(Refresh, s.sources[i], at, Adhoc);
    EnqueuedShape(s, t);
    EnqueuedBase(s, t);
    forall j: nat, kind
      ensures ChainOk(Enqueued(s, t), j, kind)
    {
      assert ChainOk(s, j, kind);
      EnqueuedCount(s, t, j, kind);
    }
  }

  lemma ArmKeeps(s: State, id: nat)
    requires Invariant(s) && Enabled(s, Arm(id))
    ensures Invariant(Do(s, Arm(id)))
  {
    var s' := Do(s, Arm(id));
    assert IdsOk(s') && WorkersOk(s') && SourcesOk(s');
    ArmTimers(s, id);
    SameQueueHeld(s, s');
    SameQueueReady(s, s');
    SameQueueWake(s, s');
    SameQueueChains(s, s');
  }

  lemma ArmTimers(s: State, id: nat)
    requires TimersOk(s) && Enabled(s, Arm(id))
    ensures TimersOk(Do(s, Arm(id)))
  {
    assert (s.armed + {id}) + (s.unarmed - {id}) == s.armed + s.unarmed;
  }

  lemma SameQueueChains(s: State, s': State)
    requires s'.data == s.data && s'.workers == s.workers && s'.boot == s.boot && s'.retired == s.retired
    requires s'.sources == s.sources && ChainsOk(s)
    ensures ChainsOk(s')
  {
    hide ChainCount;
    forall i: nat, kind
      ensures ChainOk(s', i, kind)
    {
      assert ChainOk(s, i, kind);
      SameQueueCount(s, s', i, kind);
    }
  }

  /** Chain counts only look at the queue and at what workers hold. */
  lemma SameCountsKeepChains(s: State, s': State)
    requires forall i: nat, kind :: ChainCount(s', i, kind) == ChainCount(s, i, kind)
    requires s'.boot == s.boot && s'.retired == s.retired && s'.sources == s.sources && ChainsOk(s)
    ensures ChainsOk(s')
  {
    hide ChainCount;
    forall i: nat, kind
      ensures ChainOk(s', i, kind)
    {
      assert ChainOk(s, i, kind);
    }
  }

  // ---------- a worker moves on, with the same entry in its hands or with none

  ghost predicate SameHands(p: Position, q: Position) {
    && (Holding(p) <==> Holding(q)) && (Listed(p) <==> Listed(q))
    && (Holding(p) ==> p.task == q.task)
  }

  lemma MoveHeld(s: State, w: nat, q: Position, st: WorkerState)
    requires HeldOk(s) && w < |s.workers| && SameHands(s.workers[w].at, q)
    ensures HeldOk(At(s, w, q, st))
  {
    var s' := At(s, w, q, st);
    forall v | 0 <= v < |s'.workers|
      ensures HeldBy(s', v)
    {
      assert HeldBy(s, v);
    }
    forall u, v | 0 <= u < |s'.workers| && 0 <= v < |s'.workers|
      ensures HoldersApart(s', u, v)
    {
      assert HoldersApart(s, u, v);
    }
    forall k | k in s'.running
      ensures s'.running[k].assignedWorker.Some? && RunsOn(s', k, s'.running[k].assignedWorker.value)
    {
      assert RunsOn(s, k, s.running[k].assignedWorker.value);
    }
  }

  lemma MoveCount(s: State, w: nat, q: Position, st: WorkerState, i: nat, kind: TaskKind)
    requires w < |s.workers| && SameHands(s.workers[w].at, q)
    ensures ChainCount(At(s, w, q, st), i, kind) == ChainCount(s, i, kind)
  {
    var s' := At(s, w, q, st);
    assert QueuedChain(s', i, kind) == QueuedChain(s, i, kind);
    assert HeldChain(s', i, kind) == HeldChain(s, i, kind);
  }

  lemma MoveRest(s: State, w: nat, q: Position)
    requires w < |s.workers| && SameHands(s.workers[w].at, q)
    requires IdsOk(s) && WorkersOk(s) && TimersOk(s) && ReadyOk(s) && SourcesOk(s)
    ensures var s' := At(s, w, q, Displayed(q));
            IdsOk(s') && WorkersOk(s') && TimersOk(s') && ReadyOk(s') && SourcesOk(s')
  {
    var s' := At(s, w, q, Displayed(q));
    SameQueueReady(s, s');
  }

  lemma MoveKeeps(s: State, w: nat, q: Position)
    requires Invariant(s) && w < |s.workers| && SameHands(s.workers[w].at, q)
    requires WakeOk(At(s, w, q, Displayed(q)))
    ensures Invariant(At(s, w, q, Displayed(q)))
  {
    hide IdsOk, HeldOk, WorkersOk, TimersOk, ReadyOk, WakeOk, SourcesOk, ChainsOk, SameHands, ChainCount;
    MoveRest(s, w, q);
    MoveHeld(s, w, q, Displayed(q));
    forall i: nat, kind
      ensures ChainCount(At(s, w, q, Displayed(q)), i, kind) == ChainCount(s, i, kind)
    {
      MoveCount(s, w, q, Displayed(q), i, kind);
    }
    SameCountsKeepChains(s, At(s, w, q, Displayed(q)));
  }

  /** A busy worker that moves neither wakes nor sleeps. */
  lemma BusyWake(s: State, w: nat, q: Position, st: WorkerState)
    requires WakeOk(s) && w < |s.workers| && Holding(s.workers[w].at) && !q.Parked? && !q.Signalled?
    ensures WakeOk(At(s, w, q, st))
  {
    var s' := At(s, w, q, st);
    assert Runnable(s') == Runnable(s) && SignalledWorkers(s') == SignalledWorkers(s);
    if SomeoneParked(s') {
      var v :| 0 <= v < |s'.workers| && s'.workers[v].at.Parked?;
      assert s.workers[v].at.Parked?;
    }
  }

  lemma ParkKeeps(s: State, w: nat)
    requires Invariant(s) && Enabled(s, Park(w))
    ensures Invariant(Do(s, Park(w)))
  {
    ParkMeansNothingRunnable(s, w);
    var s' := At(s, w, Parked, Displayed(Parked));
    assert Runnable(s') == Runnable(s);
    assert s.workers[w].state == Displayed(Parked);
    MoveKeeps(s, w, Parked);
  }

  lemma FinishRunKeeps(s: State, w: nat)
    requires Invariant(s) && Enabled(s, FinishRun(w))
    ensures Invariant(Do(s, FinishRun(w)))
  {
    var q := Finishing(s.workers[w].at.task);
    BusyWake(s, w, q, Displayed(q));
    MoveKeeps(s, w, q);
  }

  lemma GoIdleKeeps(s: State, w: nat)
    requires Invariant(s) && Enabled(s, GoIdle(w))
    ensures Invariant(Do(s, GoIdle(w)))
  {
    var q := InHand(s.workers[w].at.task);
    BusyWake(s, w, q, Displayed(q));
    MoveKeeps(s, w, q);
  }

  // ---------- removal from the running list

  lemma RemoveHeld(s: State, w: nat)
    requires IdsOk(s) && HeldOk(s) && Enabled(s, RemoveRunning(w))
    ensures IdsOk(Do(s, RemoveRunning(w))) && HeldOk(Do(s, RemoveRunning(w)))
  {
    var s' := Do(s, RemoveRunning(w));
    forall v | 0 <= v < |s'.workers|
      ensures HeldBy(s', v)
    {
      assert HeldBy(s, v) && HeldBy(s, w) && HoldersApart(s, v, w);
    }
    forall u, v | 0 <= u < |s'.workers| && 0 <= v < |s'.workers|
      ensures HoldersApart(s', u, v)
    {
      assert HoldersApart(s, u, v);
    }
    forall k | k in s'.running
      ensures RunsOn(s', k, s'.running[k].assignedWorker.value)
    {
      assert RunsOn(s, k, s.running[k].assignedWorker.value);
    }
  }

  lemma RemoveReady(s: State, w: nat)
    requires IdsOk(s) && ReadyOk(s) && Enabled(s, RemoveRunning(w))
    ensures ReadyOk(Do(s, RemoveRunning(w)))
  {
    var s' := Do(s, RemoveRunning(w));
    forall k | IsReady(s', k)
      ensures IsReady(s, k) && Live(s', k) == Live(s, k)
    {
    }
  }

  lemma RemoveCount(s: State, w: nat, i: nat, kind: TaskKind)
    requires Enabled(s, RemoveRunning(w))
    ensures ChainCount(Do(s, RemoveRunning(w)), i, kind) == ChainCount(s, i, kind)
  {
    var s' := Do(s, RemoveRunning(w));
    assert QueuedChain(s', i, kind) == QueuedChain(s, i, kind);
    assert HeldChain(s', i, kind) == HeldChain(s, i, kind);
  }

  lemma RemoveRest(s: State, w: nat)
    requires WorkersOk(s) && TimersOk(s) && WakeOk(s) && SourcesOk(s) && Enabled(s, RemoveRunning(w))
    ensures var s' := Do(s, RemoveRunning(w)); WorkersOk(s') && TimersOk(s') && WakeOk(s') && SourcesOk(s')
  {
    var t := s.workers[w].at.task;
    var s1 := s.(running := s.running - {t.id});
    SameQueueWake(s, s1);
    BusyWake(s1, w, Removed(t), WorkerScheduling);
  }

  lemma RemoveKeeps(s: State, w: nat)
    requires Invariant(s) && Enabled(s, RemoveRunning(w))
    ensures Invariant(Do(s, RemoveRunning(w)))
  {
    hide IdsOk, HeldOk, WorkersOk, TimersOk, ReadyOk, WakeOk, SourcesOk, ChainsOk, ChainCount;
    RemoveHeld(s, w);
    RemoveReady(s, w);
    RemoveRest(s, w);
    forall i: nat, kind
      ensures ChainCount(Do(s, RemoveRunning(w)), i, kind) == ChainCount(s, i, kind)
    {
      RemoveCount(s, w, i, kind);
    }
    SameCountsKeepChains(s, Do(s, RemoveRunning(w)));
  }

  // ---------- a new worker

  lemma StartWorkerHeld(s: State)
    requires HeldOk(s) && Enabled(s, StartWorker)
    ensures HeldOk(Do(s, StartWorker))
  {
    var s' := Do(s, StartWorker);
    forall v | 0 <= v < |s'.workers|
      ensures HeldBy(s', v)
    {
      assert v < |s.workers| ==> HeldBy(s, v);
    }
    forall u, v | 0 <= u < |s'.workers| && 0 <= v < |s'.workers|
      ensures HoldersApart(s', u, v)
    {
      assert u < |s.workers| && v < |s.workers| ==> HoldersApart(s, u, v);
    }
    forall k | k in s'.running
      ensures s'.running[k].assignedWorker.Some? && RunsOn(s', k, s'.running[k].assignedWorker.value)
    {
      assert RunsOn(s, k, s.running[k].assignedWorker.value);
    }
  }

  lemma StartWorkerWake(s: State)
    requires WakeOk(s) && Enabled(s, StartWorker)
    ensures WakeOk(Do(s, StartWorker))
  {
    var s' := Do(s, StartWorker);
    assert Runnable(s') == Runnable(s);
    assert SignalledWorkers(s') == SignalledWorkers(s);
    if SomeoneParked(s') {
      var v :| 0 <= v < |s'.workers| && s'.workers[v].at.Parked?;
      assert s.workers[v].at.Parked?;
    }
  }

  lemma StartWorkerCount(s: State, i: nat, kind: TaskKind)
    requires Enabled(s, StartWorker)
    ensures ChainCount(Do(s, StartWorker), i, kind) == ChainCount(s, i, kind)
  {
    var s' := Do(s, StartWorker);
    assert QueuedChain(s', i, kind) == QueuedChain(s, i, kind);
    assert HeldChain(s', i, kind) == HeldChain(s, i, kind);
  }

  lemma StartWorkerKeeps(s: State)
    requires Invariant(s) && Enabled(s, StartWorker)
    ensures Invariant(Do(s, StartWorker))
  {
    var s' := Do(s, StartWorker);
    assert IdsOk(s') && WorkersOk(s') && TimersOk(s') && SourcesOk(s');
    hide IdsOk, HeldOk, WorkersOk, TimersOk, ReadyOk, WakeOk, SourcesOk, ChainsOk, ChainCount;
    StartWorkerHeld(s);
    StartWorkerWake(s);
    SameQueueReady(s, s');
    forall i: nat, kind
      ensures ChainCount(s', i, kind) == ChainCount(s, i, kind)
    {
      StartWorkerCount(s, i, kind);
    }
    SameCountsKeepChains(s, s');
  }

  // ---------- scheduling the next run

  lemma ReleaseHeld(s: State, w: nat, st: WorkerState)
    requires IdsOk(s) && HeldOk(s) && w < |s.workers| && s.workers[w].at.InHand?
    ensures IdsOk(At(s, w, Checking, st)) && HeldOk(At(s, w, Checking, st))
  {
    var s' := At(s, w, Checking, st);
    forall v | 0 <= v < |s'.workers|
      ensures HeldBy(s', v)
    {
      assert HeldBy(s, v);
    }
    forall u, v | 0 <= u < |s'.workers| && 0 <= v < |s'.workers|
      ensures HoldersApart(s', u, v)
    {
      assert HoldersApart(s, u, v);
    }
    forall k | k in s'.running
      ensures RunsOn(s', k, s'.running[k].assignedWorker.value)
    {
      assert RunsOn(s, k, s.running[k].assignedWorker.value);
    }
  }

  lemma ReleaseBase(s: State, w: nat)
    requires Base(s) && w < |s.workers| && s.workers[w].at.InHand?
    ensures Base(At(s, w, Checking, s.workers[w].state))
  {
    var s' := At(s, w, Checking, s.workers[w].state);
    assert WorkersOk(s') && TimersOk(s') && SourcesOk(s');
    hide IdsOk, HeldOk, WorkersOk, TimersOk, ReadyOk, WakeOk, SourcesOk;
    ReleaseHeld(s, w, s.workers[w].state);
    SameQueueReady(s, s');
    BusyWake(s, w, Checking, s.workers[w].state);
  }

  lemma ReleaseCount(s: State, w: nat, i: nat, kind: TaskKind)
    requires w < |s.workers| && s.workers[w].at.InHand?
    ensures ChainCount(At(s, w, Checking, s.workers[w].state), i, kind)
         == ChainCount(s, i, kind) - if InChain(s.workers[w].at.task, i, kind) then 1 else 0
  {
    var s' := At(s, w, Checking, s.workers[w].state);
    assert QueuedChain(s', i, kind) == QueuedChain(s, i, kind);
    assert HeldChain(s', i, kind) == HeldChain(s, i, kind) - {w};
    assert w in HeldChain(s, i, kind) <==> InChain(s.workers[w].at.task, i, kind);
  }

  lemma RescheduleKeeps(s: State, w: nat, at: int, skip: bool)
    requires Invariant(s) && Enabled(s, Reschedule(w, at, skip))
    ensures Invariant(Do(s, Reschedule(w, at, skip)))
  {
    var t := s.workers[w].at.task;
    var s1 := At(s, w, Checking, s.workers[w].state);
    var s' := Do(s, Reschedule(w, at, skip));
    assert KnownSource(s, t) && KnownSource(s1, t);
    hide IdsOk, HeldOk, WorkersOk, TimersOk, ReadyOk, WakeOk, ChainCount, Enqueued, KnownSource;
    ReleaseBase(s, w);
    if t.reason.Adhoc? {
      RescheduleAdhocChains(s, w, at, skip);
    } else if t.kind.Auth? && skip {
      RebootBase(s1, s1.boot, s.retired + {t.source.index});
      RescheduleSkipChains(s, w, at, skip);
    } else {
      var n := NewTask(t.kind, t.source, at, Scheduled);
      SourceOnly(s1, t, n);
      EnqueuedBase(s1, n);
      RescheduleAgainChains(s, w, at, skip);
    }
  }

  lemma SourceOnly(s: State, t: Task, n: Task)
    requires KnownSource(s, t) && n.source == t.source
    ensures KnownSource(s, n)
  {
  }

  lemma RescheduleAdhocChains(s: State, w: nat, at: int, skip: bool)
    requires ChainsOk(s) && Enabled(s, Reschedule(w, at, skip)) && s.workers[w].at.task.reason.Adhoc?
    ensures ChainsOk(Do(s, Reschedule(w, at, skip)))
  {
    hide ChainCount;
    forall i: nat, kind
      ensures ChainOk(Do(s, Reschedule(w, at, skip)), i, kind)
    {
      assert ChainOk(s, i, kind);
      ReleaseCount(s, w, i, kind);
    }
  }

  lemma RescheduleSkipChains(s: State, w: nat, at: int, skip: bool)
    requires ChainsOk(s) && Enabled(s, Reschedule(w, at, skip)) && s.workers[w].at.task.reason.Scheduled?
    requires s.workers[w].at.task.kind.Auth? && skip
    ensures ChainsOk(Do(s, Reschedule(w, at, skip)))
  {
    hide ChainCount;
    var s1 := At(s, w, Checking, s.workers[w].state);
    var s' := Do(s, Reschedule(w, at, skip));
    forall i: nat, kind
      ensures ChainOk(s', i, kind)
    {
      assert ChainOk(s, i, kind);
      ReleaseCount(s, w, i, kind);
      SameQueueCount(s1, s', i, kind);
    }
  }

  lemma RescheduleAgainChains(s: State, w: nat, at: int, skip: bool)
    requires Enabled(s, Reschedule(w, at, skip)) && IdsOk(At(s, w, Checking, s.workers[w].state))
    requires ChainsOk(s) && s.workers[w].at.task.reason.Scheduled?
    requires !(s.workers[w].at.task.kind.Auth? && skip)
    ensures ChainsOk(Do(s, Reschedule(w, at, skip)))
  {
    hide ChainCount, Enqueued;
    var t := s.workers[w].at.task;
    var s1 := At(s, w, Checking, s.workers[w].state);
    var n := NewTask(t.kind, t.source, at, Scheduled);
    EnqueuedShape(s1, n);
    forall i: nat, kind
      ensures ChainOk(Enqueued(s1, n), i, kind)
    {
      assert ChainOk(s, i, kind);
      ReleaseCount(s, w, i, kind);
      EnqueuedCount(s1, n, i, kind);
    }
  }

  // ---------- the timer callback

  lemma FireHeld(s: State, id: nat, woken: Option<nat>)
    requires IdsOk(s) && HeldOk(s) && Enabled(s, Fire(id, woken)) && id in s.data
    ensures IdsOk(Do(s, Fire(id, woken))) && HeldOk(Do(s, Fire(id, woken)))
  {
    var s' := Do(s, Fire(id, woken));
    forall v | 0 <= v < |s'.workers|
      ensures HeldBy(s', v)
    {
      assert HeldBy(s, v);
    }
    forall u, v | 0 <= u < |s'.workers| && 0 <= v < |s'.workers|
      ensures HoldersApart(s', u, v)
    {
      assert HoldersApart(s, u, v);
    }
    forall k | k in s'.running
      ensures RunsOn(s', k, s'.running[k].assignedWorker.value)
    {
      assert RunsOn(s, k, s.running[k].assignedWorker.value);
    }
  }

  lemma EqualReadyFound(s: State, k: nat, t: Task)
    requires IdsOk(s) && ReadyOk(s) && IsReady(s, k) && SameWork(Live(s, k), t)
    ensures SameReady(s.data, t) || SameReady(s.running, t)
  {
    if k in s.data {
      assert SameWork(s.data[k], t);
    } else {
      assert SameWork(s.running[k], t);
    }
  }

  /** The check for equal ready work, in the queue and running, is what keeps ready work unique. */
  lemma FireReady(s: State, id: nat, woken: Option<nat>)
    requires IdsOk(s) && ReadyOk(s) && Enabled(s, Fire(id, woken)) && id in s.data && s.data[id].state.Pending?
    ensures ReadyOk(Do(s, Fire(id, woken)))
  {
    var s' := Do(s, Fire(id, woken));
    forall k | IsReady(s', k) && k != id
      ensures IsReady(s, k) && Live(s', k) == Live(s, k)
      ensures IsReady(s', id) ==> !SameWork(Live(s', k), Live(s', id))
    {
      if SameWork(Live(s, k), s.data[id]) {
        EqualReadyFound(s, k, s.data[id]);
      }
    }
  }

  lemma FireTimers(s: State, id: nat, woken: Option<nat>)
    requires TimersOk(s) && Enabled(s, Fire(id, woken)) && id in s.data
    ensures TimersOk(Do(s, Fire(id, woken)))
  {
    var s' := Do(s, Fire(id, woken));
    assert !s'.data[id].state.Pending?;
    assert id !in s.unarmed;
  }

  lemma FireWake(s: State, id: nat, woken: Option<nat>)
    requires WakeOk(s) && Enabled(s, Fire(id, woken)) && id in s.data
    ensures WakeOk(Do(s, Fire(id, woken)))
  {
    var s' := Do(s, Fire(id, woken));
    if SomeoneParked(s') {
      var v :| 0 <= v < |s'.workers| && s'.workers[v].at.Parked?;
      assert s.workers[v].at.Parked?;
      assert Runnable(s') == Runnable(s) + {id};
      assert SignalledWorkers(s') == SignalledWorkers(s) + {woken.value};
      assert woken.value !in SignalledWorkers(s);
    }
  }

  lemma FireCount(s: State, id: nat, woken: Option<nat>, i: nat, kind: TaskKind)
    requires Enabled(s, Fire(id, woken)) && id in s.data
    ensures ChainCount(Do(s, Fire(id, woken)), i, kind) == ChainCount(s, i, kind)
  {
    var s' := Do(s, Fire(id, woken));
    assert QueuedChain(s', i, kind) == QueuedChain(s, i, kind);
    assert HeldChain(s', i, kind) == HeldChain(s, i, kind);
  }

  lemma FireRest(s: State, id: nat, woken: Option<nat>)
    requires WorkersOk(s) && SourcesOk(s) && Enabled(s, Fire(id, woken)) && id in s.data
    ensures WorkersOk(Do(s, Fire(id, woken))) && SourcesOk(Do(s, Fire(id, woken)))
  {
    var s' := Do(s, Fire(id, woken));
    forall v | 0 <= v < |s'.workers| && Holding(s'.workers[v].at)
      ensures KnownSource(s', s'.workers[v].at.task)
    {
      assert KnownSource(s, s.workers[v].at.task);
    }
  }

  lemma FireKeeps(s: State, id: nat, woken: Option<nat>)
    requires Invariant(s) && Enabled(s, Fire(id, woken))
    ensures Invariant(Do(s, Fire(id, woken)))
  {
    assert id in s.armed + s.unarmed;
    assert id in s.data && s.data[id].state.Pending?;
    hide IdsOk, HeldOk, WorkersOk, TimersOk, ReadyOk, WakeOk, SourcesOk, ChainsOk, ChainCount;
    FireHeld(s, id, woken);
    FireReady(s, id, woken);
    FireTimers(s, id, woken);
    FireWake(s, id, woken);
    FireRest(s, id, woken);
    forall i: nat, kind
      ensures ChainCount(Do(s, Fire(id, woken)), i, kind) == ChainCount(s, i, kind)
    {
      FireCount(s, id, woken, i, kind);
    }
    SameCountsKeepChains(s, Do(s, Fire(id, woken)));
  }

  // ---------- dequeue

  lemma TakeHeld(s: State, w: nat, id: nat)
    requires IdsOk(s) && HeldOk(s) && Enabled(s, Take(w, id))
    ensures IdsOk(Taken(s, w, id)) && HeldOk(Taken(s, w, id))
  {
    var s' := Taken(s, w, id);
    forall v | 0 <= v < |s'.workers|
      ensures HeldBy(s', v)
    {
      assert HeldBy(s, v);
    }
    forall u, v | 0 <= u < |s'.workers| && 0 <= v < |s'.workers|
      ensures HoldersApart(s', u, v)
    {
      assert HoldersApart(s, u, v) && HeldBy(s, u) && HeldBy(s, v);
    }
    forall k | k in s'.running
      ensures s'.running[k].assignedWorker.Some? && RunsOn(s', k, s'.running[k].assignedWorker.value)
    {
      assert k in s.running ==> RunsOn(s, k, s.running[k].assignedWorker.value);
    }
  }

  lemma TakeReady(s: State, w: nat, id: nat)
    requires IdsOk(s) && ReadyOk(s) && Enabled(s, Take(w, id))
    ensures ReadyOk(Taken(s, w, id))
  {
    var s' := Taken(s, w, id);
    forall k | IsReady(s', k)
      ensures IsReady(s, k) && Live(s', k).source == Live(s, k).source && Live(s', k).kind == Live(s, k).kind
    {
    }
  }

  lemma TakeTimers(s: State, w: nat, id: nat)
    requires TimersOk(s) && Enabled(s, Take(w, id))
    ensures TimersOk(Taken(s, w, id))
  {
  }

  lemma TakeWake(s: State, w: nat, id: nat)
    requires WakeOk(s) && Enabled(s, Take(w, id))
    ensures WakeOk(Taken(s, w, id))
  {
    var s' := Taken(s, w, id);
    if SomeoneParked(s') {
      var v :| 0 <= v < |s'.workers| && s'.workers[v].at.Parked?;
      assert s.workers[v].at.Parked?;
      assert Runnable(s') == Runnable(s) - {id} && id in Runnable(s);
      assert SignalledWorkers(s') == SignalledWorkers(s) - {w};
    }
  }

  lemma TakeCount(s: State, w: nat, id: nat, i: nat, kind: TaskKind)
    requires Enabled(s, Take(w, id))
    ensures ChainCount(Taken(s, w, id), i, kind) == ChainCount(s, i, kind)
  {
    var s' := Taken(s, w, id);
    var t := s.data[id];
    TakeQueuedChain(s, w, id, i, kind);
    TakeHeldChain(s, w, id, i, kind);
    hide QueuedChain, HeldChain, Taken;
  }

  lemma TakeQueuedChain(s: State, w: nat, id: nat, i: nat, kind: TaskKind)
    requires Enabled(s, Take(w, id))
    ensures QueuedChain(Taken(s, w, id), i, kind) == QueuedChain(s, i, kind) - {id}
    ensures id in QueuedChain(s, i, kind) <==> InChain(s.data[id], i, kind)
  {
  }

  lemma TakeHeldChain(s: State, w: nat, id: nat, i: nat, kind: TaskKind)
    requires Enabled(s, Take(w, id))
    ensures w !in HeldChain(s, i, kind)
    ensures HeldChain(Taken(s, w, id), i, kind) == HeldChain(s, i, kind)
            + if InChain(s.data[id], i, kind) then {w} else {}
  {
    assert InChain(Taken(s, w, id).workers[w].at.task, i, kind) <==> InChain(s.data[id], i, kind);
  }

  lemma TakeRest(s: State, w: nat, id: nat)
    requires WorkersOk(s) && SourcesOk(s) && Enabled(s, Take(w, id))
    ensures WorkersOk(Taken(s, w, id)) && SourcesOk(Taken(s, w, id))
  {
    var s' := Taken(s, w, id);
    assert KnownSource(s, s.data[id]);
    forall v | 0 <= v < |s'.workers| && Holding(s'.workers[v].at)
      ensures KnownSource(s', s'.workers[v].at.task)
    {
      assert v != w ==> KnownSource(s, s.workers[v].at.task);
    }
    forall k | k in s'.data
      ensures KnownSource(s', s'.data[k])
    {
      assert KnownSource(s, s.data[k]);
    }
  }

  lemma TakeKeeps(s: State, w: nat, id: nat)
    requires Invariant(s) && Enabled(s, Take(w, id))
    ensures Invariant(Do(s, Take(w, id)))
  {
    hide IdsOk, HeldOk, WorkersOk, TimersOk, ReadyOk, WakeOk, SourcesOk, ChainsOk, ChainCount;
    TakeHeld(s, w, id);
    TakeReady(s, w, id);
    TakeTimers(s, w, id);
    TakeWake(s, w, id);
    TakeRest(s, w, id);
    forall i: nat, kind
      ensures ChainCount(Taken(s, w, id), i, kind) == ChainCount(s, i, kind)
    {
      TakeCount(s, w, id, i, kind);
    }
    SameCountsKeepChains(s, Taken(s, w, id));
  }

  // ---------- every step, every run

  lemma InitKeeps(s: State)
    requires Init(s)
    ensures Invariant(s)
  {
    forall i: nat, kind
      ensures ChainOk(s, i, kind)
    {
      assert QueuedChain(s, i, kind) == {} && HeldChain(s, i, kind) == {};
      if s.sources == [] {
        assert !Started(s, i, kind);
      }
    }
  }

  /** Every step keeps the invariant. */
  lemma StepKeeps(s: State, step: Step)
    requires Invariant(s) && Enabled(s, step)
    ensures Invariant(Do(s, step))
  {
    hide Invariant, Do;
    match step
    case BootRefresh(at) => BootRefreshKeeps(s, at);
    case BootAuth(at, skip) => BootAuthKeeps(s, at, skip);
    case StartWorker => StartWorkerKeeps(s);
    case AdhocRefresh(i, at) => AdhocKeeps(s, i, at);
    case Arm(id) => ArmKeeps(s, id);
    case Fire(id, woken) => FireKeeps(s, id, woken);
    case Park(w) => ParkKeeps(s, w);
    case Take(w, id) => TakeKeeps(s, w, id);
    case FinishRun(w) => FinishRunKeeps(s, w);
    case RemoveRunning(w) => RemoveKeeps(s, w);
    case GoIdle(w) => GoIdleKeeps(s, w);
    case Reschedule(w, at, skip) => RescheduleKeeps(s, w, at, skip);
  }

  lemma {:induction false} RunKeeps(trace: seq<State>, i: nat)
    requires IsRun(trace) && i < |trace|
    ensures Invariant(trace[i])
  {
    hide Invariant, Init, Do, Enabled;
    if i == 0 {
      InitKeeps(trace[0]);
    } else {
      RunKeeps(trace, i - 1);
      assert Next(trace[i-1], trace[i]);
      var step :| Enabled(trace[i-1], step) && trace[i] == Do(trace[i-1], step);
      StepKeeps(trace[i-1], step);
    }
  }
}
