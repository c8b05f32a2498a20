/** What holds at every moment of every run of the scheduler. */
module SchedulerTheorems {
  import opened Options
  import opened Tasks
  import opened Scheduler
  import opened SchedulerInvariant

  /** No lost wakeup. While a worker is parked, each runnable entry has a woken worker of its own that has
      yet to look at the queue; so when every worker sleeps, nothing is runnable. */
  lemma NoLostWakeup(trace: seq<State>, i: nat)
    requires IsRun(trace) && i < |trace|
    ensures var s := trace[i];
            && (SomeoneParked(s) ==> |Runnable(s)| <= |SignalledWorkers(s)|)
            && (s.workers != [] && (forall w | 0 <= w < |s.workers| :: s.workers[w].at.Parked?) ==> Runnable(s) == {})
  {
    RunKeeps(trace, i);
    var s := trace[i];
    if s.workers != [] && forall w | 0 <= w < |s.workers| :: s.workers[w].at.Parked? {
      assert s.workers[0].at.Parked?;
      assert SignalledWorkers(s) == {};
    }
  }

  /** The entries in the queue and in the running list. */
  ghost function Entries(s: State): set<Task> {
    (set k | k in s.data :: s.data[k]) + (set k | k in s.running :: s.running[k])
  }

  /** Mutual exclusion: of each kind of work on each source name at most one entry is ready in the queue and
      the running list together, every running entry is ready, and no two workers run the same work. */
  lemma MutualExclusion(trace: seq<State>, i: nat)
    requires IsRun(trace) && i < |trace|
    ensures var s := trace[i];
            && (forall k | k in s.running :: s.running[k].state == Ready)
            && (forall a, b | a in Entries(s) && b in Entries(s) && a.state == Ready && b.state == Ready
                  && a.source.name == b.source.name && a.kind == b.kind :: a == b)
            && (forall w, v | 0 <= w < |s.workers| && 0 <= v < |s.workers|
                  && Listed(s.workers[w].at) && Listed(s.workers[v].at)
                  && s.workers[w].at.task.source.name == s.workers[v].at.task.source.name
                  && s.workers[w].at.task.kind == s.workers[v].at.task.kind :: w == v)
  {
    RunKeeps(trace, i);
    var s := trace[i];
    forall a, b | a in Entries(s) && b in Entries(s) && a.state == Ready && b.state == Ready
      && a.source.name == b.source.name && a.kind == b.kind
      ensures a == b
    {
      ReadyEntry(s, a);
      ReadyEntry(s, b);
      assert SameWork(a, b);
    }
    forall w, v | 0 <= w < |s.workers| && 0 <= v < |s.workers|
      && Listed(s.workers[w].at) && Listed(s.workers[v].at)
      && SameWork(s.workers[w].at.task, s.workers[v].at.task)
      ensures w == v
    {
      ExclusiveAt(s, w, v);
    }
  }

  lemma ReadyEntry(s: State, a: Task)
    requires IdsOk(s) && a in Entries(s) && a.state == Ready
    ensures IsReady(s, a.id) && Live(s, a.id) == a
  {
  }

  /** Over every run an entry that stays in the queue changes only when its timer fires: from pending, to be skipped
      if a ready entry of its source's name and its kind is in the queue or running, and to ready if not. */
  lemma MarkedAsPromised(trace: seq<State>, i: nat, id: nat)
    requires IsRun(trace) && i + 1 < |trace| && id in trace[i].data && id in trace[i+1].data
    ensures var s, t, t' := trace[i], trace[i].data[id], trace[i+1].data[id];
            t' != t ==>
              && t.state == Pending
              && t' == t.(state := if exists x :: x in Entries(s) && x.state == Ready && x.source.name == t.source.name
                                                  && x.kind == t.kind
                                   then Skip else Ready)
  {
    RunKeeps(trace, i);
    assert Next(trace[(i+1)-1], trace[i+1]);
    var step :| Enabled(trace[i], step) && trace[i+1] == Do(trace[i], step);
    OnlyFireMarks(trace[i], step, id);
  }

  lemma OnlyFireMarks(s: State, step: Step, id: nat)
    requires IdsOk(s) && TimersOk(s) && Enabled(s, step) && id in s.data && id in Do(s, step).data
    ensures var t, t' := s.data[id], Do(s, step).data[id];
            t' != t ==>
              && t.state == Pending
              && t' == t.(state := if exists x :: x in Entries(s) && x.state == Ready && x.source.name == t.source.name
                                                  && x.kind == t.kind
                                   then Skip else Ready)
  {
    OnlyFireChanges(s, step, id);
    EqualReady(s, s.data[id]);
    hide *;
  }

  lemma OnlyFireChanges(s: State, step: Step, id: nat)
    requires IdsOk(s) && TimersOk(s) && Enabled(s, step) && id in s.data && id in Do(s, step).data
    ensures var t, t' := s.data[id], Do(s, step).data[id];
            t' != t ==>
              && t.state == Pending
              && t' == t.(state := if SameReady(s.data, t) || SameReady(s.running, t) then Skip else Ready)
  {
    hide SameReady;
    if step.Fire? && step.id == id {
      assert id in s.armed + s.unarmed;
    }
  }

  lemma EqualReady(s: State, t: Task)
    ensures SameReady(s.data, t) || SameReady(s.running, t) <==>
            exists x :: x in Entries(s) && x.state == Ready && x.source.name == t.source.name && x.kind == t.kind
  {
    if SameReady(s.data, t) {
      var k :| k in s.data && SameWork(s.data[k], t) && s.data[k].state.Ready?;
      assert s.data[k] in Entries(s);
    }
    if SameReady(s.running, t) {
      var k :| k in s.running && SameWork(s.running[k], t) && s.running[k].state.Ready?;
      assert s.running[k] in Entries(s);
    }
  }

  /** Which steps add an entry, and which: one for the source whose turn it is at the start, one for a refresh that is
      asked for, and the next one of what a worker has just done, but for work that was asked for and for an
      authentication that is not to be scheduled again. It is pending and unassigned, under the next id. */
  lemma EntersAs(s: State, step: Step, id: nat)
    requires Invariant(s) && Enabled(s, step) && id !in s.data
    ensures var enters :=
              match step
              case BootRefresh(_) => true
              case BootAuth(_, skip) => !skip
              case AdhocRefresh(_, _) => true
              case Reschedule(w, _, skip) =>
                var t := s.workers[w].at.task;
                t.reason == Scheduled && !(t.kind == Auth && skip)
              case _ => false;
            id in Do(s, step).data <==> id == s.nextTaskID && enters
    ensures id in Do(s, step).data ==>
              var t := Do(s, step).data[id];
              && t.id == id && t.state == Pending && t.assignedWorker == None
              && match step
                 case BootRefresh(at) => t.runTime == at && t.kind == Refresh && t.reason == Scheduled
                   && t.source == s.sources[s.boot.source]
                 case BootAuth(at, _) => t.runTime == at && t.kind == Auth && t.reason == Scheduled
                   && t.source == s.sources[s.boot.source]
                 case AdhocRefresh(source, at) => t.runTime == at && t.kind == Refresh && t.reason == Adhoc
                   && t.source == s.sources[source]
                 case Reschedule(w, at, _) => t.runTime == at && t.reason == Scheduled
                   && t.kind == s.workers[w].at.task.kind && t.source == s.workers[w].at.task.source
                 case _ => false
  {
  }

  lemma ExclusiveAt(s: State, w: nat, v: nat)
    requires IdsOk(s) && HeldOk(s) && ReadyOk(s) && w < |s.workers| && v < |s.workers|
    requires Listed(s.workers[w].at) && Listed(s.workers[v].at)
    requires SameWork(s.workers[w].at.task, s.workers[v].at.task)
    ensures w == v
  {
    var j, k := s.workers[w].at.task.id, s.workers[v].at.task.id;
    assert HeldBy(s, w) && HeldBy(s, v) && HoldersApart(s, w, v);
    assert IsReady(s, j) && IsReady(s, k);
    assert Live(s, j) == s.workers[w].at.task && Live(s, k) == s.workers[v].at.task;
  }

  /** Schedule conservation: from the moment its chain is started, a source has exactly one scheduled refresh
      in the queue and workers' hands together, and exactly one scheduled auth unless the auth chain was retired. */
  lemma ScheduleConservation(trace: seq<State>, i: nat, source: nat)
    requires IsRun(trace) && i < |trace| && source < |trace[i].sources|
    ensures var s := trace[i];
            && (s.boot.StartWorkers? ==> ChainCount(s, source, Refresh) == 1)
            && (s.boot.StartWorkers? ==> ChainCount(s, source, Auth) == if source in s.retired then 0 else 1)
            && ChainCount(s, source, Refresh) <= 1 && ChainCount(s, source, Auth) <= 1
  {
    RunKeeps(trace, i);
    hide ChainCount;
    assert ChainOk(trace[i], source, Refresh) && ChainOk(trace[i], source, Auth);
  }

  /** A worker that has a source's scheduled auth in hand does not schedule the next one. */
  ghost predicate SkipsScheduling(s: State, s': State, source: nat) {
    exists w, at :: EndsChain(s, s', w, at, source)
  }

  ghost predicate EndsChain(s: State, s': State, w: nat, at: int, source: nat) {
    && Enabled(s, Reschedule(w, at, true)) && s' == Do(s, Reschedule(w, at, true))
    && InChain(s.workers[w].at.task, source, Auth)
  }

  /** Over every run, what a source has scheduled is never lost: its scheduled refreshes never become fewer, and its
      scheduled auths only in a step in which a worker skips scheduling the next one. */
  lemma ChainEndsOnlyBySkip(trace: seq<State>, i: nat, source: nat)
    requires IsRun(trace) && i + 1 < |trace| && source < |trace[i].sources|
    ensures ChainCount(trace[i+1], source, Refresh) >= ChainCount(trace[i], source, Refresh)
    ensures ChainCount(trace[i+1], source, Auth) < ChainCount(trace[i], source, Auth) ==>
              SkipsScheduling(trace[i], trace[i+1], source)
  {
    hide Invariant, ChainCount, SkipsScheduling, Do, Enabled, Init;
    RunKeeps(trace, i);
    assert Next(trace[(i+1)-1], trace[i+1]);
    var step :| Enabled(trace[i], step) && trace[i+1] == Do(trace[i], step);
    StepKeepsChains(trace[i], step, source);
  }

  lemma StepKeepsChains(s: State, step: Step, source: nat)
    requires Invariant(s) && Enabled(s, step) && source < |s.sources|
    ensures ChainCount(Do(s, step), source, Refresh) >= ChainCount(s, source, Refresh)
    ensures ChainCount(Do(s, step), source, Auth) < ChainCount(s, source, Auth) ==>
              SkipsScheduling(s, Do(s, step), source)
  {
    StepKeeps(s, step);
    var s' := Do(s, step);
    ChainsAt(s, source);
    ChainsAt(s', source);
    hide ChainCount, Invariant;
    StaysStarted(s, step, source, Refresh);
    StaysStarted(s, step, source, Auth);
    hide Started, Do;
    if ChainCount(s', source, Auth) < ChainCount(s, source, Auth) {
      RetiringStep(s, step, source);
      assert EndsChain(s, s', step.worker, step.runTime, source);
    }
  }

  lemma ChainsAt(s: State, source: nat)
    requires Invariant(s)
    ensures ChainOk(s, source, Refresh) && ChainOk(s, source, Auth)
  {
  }

  lemma StaysStarted(s: State, step: Step, source: nat, kind: TaskKind)
    requires Enabled(s, step)
    ensures Started(s, source, kind) ==> Started(Do(s, step), source, kind)
    ensures source in s.retired ==> source in Do(s, step).retired
  {
  }

  lemma RetiringStep(s: State, step: Step, source: nat)
    requires Enabled(s, step) && source !in s.retired && source in Do(s, step).retired && Started(s, source, Auth)
    ensures step.Reschedule? && step.skip && InChain(s.workers[step.worker].at.task, source, Auth)
  {
  }

  /** Timers and pending entries correspond, so a firing timer always finds its entry, still pending: the
      callback's branch for an entry removed pre-emptively is never taken. */
  lemma TimersMatchPending(trace: seq<State>, i: nat, id: nat)
    requires IsRun(trace) && i < |trace|
    ensures var s := trace[i];
            && (id in s.armed + s.unarmed <==> id in s.data && s.data[id].state.Pending?)
            && (id in s.armed ==> id !in s.unarmed)
  {
    RunKeeps(trace, i);
  }

  /** Ids are unique across the queue, the running list and workers' hands, and below the next id. */
  lemma IdsUnique(trace: seq<State>, i: nat, w: nat, v: nat)
    requires IsRun(trace) && i < |trace|
    ensures var s := trace[i];
            && IdsOk(s)
            && (w < |s.workers| && Holding(s.workers[w].at) ==>
                  && s.workers[w].at.task.id !in s.data && s.workers[w].at.task.id < s.nextTaskID
                  && (s.workers[w].at.task.id in s.running <==> Listed(s.workers[w].at)))
            && (w < v < |s.workers| && Holding(s.workers[w].at) && Holding(s.workers[v].at) ==>
                  s.workers[w].at.task.id != s.workers[v].at.task.id)
  {
    RunKeeps(trace, i);
    var s := trace[i];
    if w < |s.workers| {
      assert HeldBy(s, w);
      if v < |s.workers| {
        assert HoldersApart(s, w, v);
      }
    }
  }

  ghost function AssignedWorkers(s: State, ids: set<nat>): set<nat>
    requires ids <= s.running.Keys && forall k | k in ids :: s.running[k].assignedWorker.Some?
  {
    set k | k in ids :: s.running[k].assignedWorker.value
  }

  lemma {:induction false} DistinctWorkers(s: State, ids: set<nat>)
    requires HeldOk(s) && ids <= s.running.Keys
    ensures |AssignedWorkers(s, ids)| == |ids|
  {
    if ids == {} {
      assert AssignedWorkers(s, ids) == {};
    } else {
      var k :| k in ids;
      DistinctWorkers(s, ids - {k});
      var w := s.running[k].assignedWorker.value;
      assert AssignedWorkers(s, ids) == AssignedWorkers(s, ids - {k}) + {w};
      forall j | j in ids - {k}
        ensures s.running[j].assignedWorker.value != w
      {
        assert RunsOn(s, k, w) && RunsOn(s, j, s.running[j].assignedWorker.value);
      }
    }
  }

  lemma {:induction false} BelowBound(ws: set<nat>, n: nat)
    requires forall w | w in ws :: w < n
    ensures |ws| <= n
  {
    if n == 0 {
      assert ws == {};
    } else {
      BelowBound(ws - {n - 1}, n - 1);
    }
  }

  /** Worker accounting: each running entry has a worker of its own, which shows that it is busy; so running
      entries never outnumber the workers. A worker shows running from its dequeue until the run returns, scheduling
      until it has taken the entry off the running list, and idle the rest of the time. */
  lemma WorkerAccounting(trace: seq<State>, i: nat)
    requires IsRun(trace) && i < |trace|
    ensures var s := trace[i];
            && |s.running| <= |s.workers| <= s.numWorkers
            && (forall w | 0 <= w < |s.workers| ::
                  && (s.workers[w].state == WorkerRunning <==> s.workers[w].at.Executing?)
                  && (s.workers[w].state == WorkerScheduling
                      <==> s.workers[w].at.Finishing? || s.workers[w].at.Removed?))
            && forall k | k in s.running ::
                 && s.running[k].assignedWorker.Some?
                 && var w := s.running[k].assignedWorker.value;
                    && w < |s.workers| && s.workers[w].state in {WorkerRunning, WorkerScheduling}
                    && Listed(s.workers[w].at) && s.workers[w].at.task == s.running[k]
  {
    RunKeeps(trace, i);
    var s := trace[i];
    forall k | k in s.running
      ensures s.running[k].assignedWorker.Some?
      ensures var w := s.running[k].assignedWorker.value;
              && w < |s.workers| && s.workers[w].state in {WorkerRunning, WorkerScheduling}
              && Listed(s.workers[w].at) && s.workers[w].at.task == s.running[k]
    {
      RunningEntry(s, k);
    }
    DistinctWorkers(s, s.running.Keys);
    BelowBound(AssignedWorkers(s, s.running.Keys), |s.workers|);
  }

  lemma RunningEntry(s: State, k: nat)
    requires HeldOk(s) && WorkersOk(s) && k in s.running
    ensures s.running[k].assignedWorker.Some?
    ensures var w := s.running[k].assignedWorker.value;
            && w < |s.workers| && s.workers[w].state in {WorkerRunning, WorkerScheduling}
            && Listed(s.workers[w].at) && s.workers[w].at.task == s.running[k]
  {
    var w := s.running[k].assignedWorker.value;
    assert RunsOn(s, k, w);
    assert HeldBy(s, w);
  }

  // ---------- a dump holds the queue's lock, but workers change the state they show without it

  predicate NeedsNoLock(s: State, step: Step) {
    match step
    case Arm(_) => true
    case StartWorker => true
    case FinishRun(_) => true
    case GoIdle(_) => true
    case Reschedule(w, _, skip) =>
      && w < |s.workers| && s.workers[w].at.InHand?
      && (s.workers[w].at.task.reason.Adhoc? || (s.workers[w].at.task.kind.Auth? && skip))
    case _ => false
  }

  /** What can happen while another goroutine holds the lock. */
  ghost predicate IsUnlockedRun(trace: seq<State>) {
    && trace != []
    && forall i | 0 < i < |trace| :: NextUnlocked(trace[i-1], trace[i])
  }

  ghost predicate NextUnlocked(s: State, s': State) {
    exists step :: Enabled(s, step) && NeedsNoLock(s, step) && s' == Do(s, step)
  }

  lemma UnlockedStepKeepsLists(s: State, step: Step)
    requires Enabled(s, step) && NeedsNoLock(s, step)
    ensures Do(s, step).data == s.data && Do(s, step).running == s.running
  {
  }

  lemma {:induction false} UnlockedRunKeepsLists(trace: seq<State>, m: nat)
    requires IsUnlockedRun(trace) && m < |trace| && Invariant(trace[0])
    ensures Invariant(trace[m]) && trace[m].data == trace[0].data && trace[m].running == trace[0].running
  {
    hide Invariant, Do, Enabled, NeedsNoLock;
    if m > 0 {
      UnlockedRunKeepsLists(trace, m - 1);
      assert NextUnlocked(trace[m-1], trace[m]);
      var step :| Enabled(trace[m-1], step) && NeedsNoLock(trace[m-1], step) && trace[m] == Do(trace[m-1], step);
      StepKeeps(trace[m-1], step);
      UnlockedStepKeepsLists(trace[m-1], step);
    }
  }

  /** Every dump agrees: it lists the running entries at `trace[0]` and reads the workers' states later, at any
      `trace[m]`. A listed entry's worker then shows running or scheduling, and a worker that shows running is
      the worker of a listed entry. */
  lemma DumpAgrees(run: seq<State>, i: nat, trace: seq<State>, m: nat)
    requires IsRun(run) && i < |run| && IsUnlockedRun(trace) && trace[0] == run[i] && m < |trace|
    ensures forall k | k in trace[0].running ::
              && trace[0].running[k].assignedWorker.Some?
              && var w := trace[0].running[k].assignedWorker.value;
                 w < |trace[m].workers| && trace[m].workers[w].state in {WorkerRunning, WorkerScheduling}
    ensures forall w | 0 <= w < |trace[m].workers| && trace[m].workers[w].state.WorkerRunning? ::
              exists k :: k in trace[0].running && trace[0].running[k].assignedWorker == Some(w)
  {
    RunKeeps(run, i);
    UnlockedRunKeepsLists(trace, m);
    var s := trace[m];
    forall k | k in trace[0].running
      ensures s.running[k].assignedWorker.Some?
      ensures var w := s.running[k].assignedWorker.value;
              w < |s.workers| && s.workers[w].state in {WorkerRunning, WorkerScheduling}
    {
      RunningEntry(s, k);
    }
    forall w | 0 <= w < |s.workers| && s.workers[w].state.WorkerRunning?
      ensures exists k :: k in trace[0].running && trace[0].running[k].assignedWorker == Some(w)
    {
      assert HeldBy(s, w);
      assert s.workers[w].at.task.id in trace[0].running;
    }
  }

  // ---------- what a dequeue may take

  /** Over every run: only the foremost entry leaves the queue, and not while it is pending. So while one that is to
      be skipped is in it no other leaves, no ready refresh leaves while a ready auth is in it, and of equally urgent
      entries the one with the earlier time leaves first, or the smaller id. */
  lemma LeavesInPriorityOrder(trace: seq<State>, i: nat, id: nat, other: nat)
    requires IsRun(trace) && i + 1 < |trace|
    requires var s := trace[i]; id in s.data && other in s.data && id != other && id !in trace[i+1].data
    ensures var t, x := trace[i].data[id], trace[i].data[other];
            && t.state != Pending
            && (x.state == Skip ==> t.state == Skip)
            && (x.state == t.state && x.kind == Auth ==> t.kind == Auth)
            && (x.state == t.state && x.kind == t.kind ==>
                  t.runTime < x.runTime || (t.runTime == x.runTime && id < other))
  {
    RunKeeps(trace, i);
    var s := trace[i];
    assert Next(trace[(i+1)-1], trace[i+1]);
    var step :| Enabled(s, step) && trace[i+1] == Do(s, step);
    OnlyTakeRemoves(s, step, id);
    assert Before(s.data[id], s.data[other]);
  }

  lemma OnlyTakeRemoves(s: State, step: Step, id: nat)
    requires Enabled(s, step) && id in s.data && id !in Do(s, step).data
    ensures step.Take? && step.id == id && IsFirst(s.data, id) && !s.data[id].state.Pending?
  {
  }
}
