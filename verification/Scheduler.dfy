/** The scheduler as a concurrent step machine. Every section run under the queue's lock is one step; what
    a worker does outside the lock is split at the points where another goroutine can observe it.

    The queue is seen through its ids here; the module `TaskQueues` proves that the sorted slices do the
    same. Timers may fire at any moment after they were armed, ad-hoc refreshes may arrive at any moment,
    and the outcomes of `CalcNextAuth` and `CalcNextRefresh` are arbitrary, so every claim about all runs
    of this machine covers every clock and every backend. */
module Scheduler {
  import opened Options
  import opened Tasks

  datatype WorkerState = WorkerIdle | WorkerRunning | WorkerScheduling

  /** Where a worker's goroutine is. From `Executing` to `InHand` it holds the entry it dequeued. */
  datatype Position =
    | Checking               // about to take the lock and look at the queue
    | Parked                 // inside `cond.Wait`
    | Signalled              // woken by `cond.Signal`, has not looked at the queue again
    | Executing(task: Task)  // listed as running, `run` in progress
    | Finishing(task: Task)  // `run` returned, still listed as running
    | Removed(task: Task)    // no longer listed as running
    | InHand(task: Task)     // returned by `runNext`, next run not yet scheduled

  datatype Worker = Worker(at: Position, state: WorkerState)

  /** How far `BackgroundScheduler` has come after the initial authentications. */
  datatype Boot = EnqueueRefresh(source: nat) | EnqueueAuth(source: nat) | StartWorkers

  datatype State = State(
    sources: seq<SourceRef>,
    numWorkers: nat,
    data: map<nat, Task>,
    running: map<nat, Task>,
    nextTaskID: nat,
    armed: set<nat>,    // timers that have not fired yet
    unarmed: set<nat>,  // entries inserted, but whose `time.AfterFunc` has not been called yet
    workers: seq<Worker>,
    boot: Boot,
    retired: set<nat>   // history: sources whose chain of scheduled auths was ended by skip-scheduling
  )

  datatype Step =
    | BootRefresh(runTime: int)
    | BootAuth(runTime: int, skip: bool)
    | StartWorker
    | AdhocRefresh(source: nat, runTime: int)
    | Arm(id: nat)
    | Fire(id: nat, woken: Option<nat>)
    | Park(worker: nat)
    | Take(worker: nat, id: nat)
    | FinishRun(worker: nat)
    | RemoveRunning(worker: nat)
    | GoIdle(worker: nat)
    | Reschedule(worker: nat, runTime: int, skip: bool)

  predicate Holding(p: Position) {
    p.Executing? || p.Finishing? || p.Removed? || p.InHand?
  }

  predicate Listed(p: Position) {
    p.Executing? || p.Finishing?
  }

  predicate LooksAtQueue(p: Position) {
    p.Checking? || p.Signalled?
  }

  predicate SameReady(tasks: map<nat, Task>, t: Task) {
    exists k | k in tasks :: SameWork(tasks[k], t) && tasks[k].state.Ready?
  }

  /** What `data[0]` is once the slice is sorted. */
  predicate IsFirst(data: map<nat, Task>, id: nat) {
    id in data && forall k | k in data && k != id :: Before(data[id], data[k])
  }

  function NewTask(kind: TaskKind, source: SourceRef, runTime: int, reason: RunReason): Task {
    Task(0, kind, source, runTime, reason, Pending, None)
  }

  /** The locked part of `enqueue`. */
  function Enqueued(s: State, t: Task): State {
    s.(data := s.data[s.nextTaskID := t.(id := s.nextTaskID)],
       nextTaskID := s.nextTaskID + 1,
       unarmed := s.unarmed + {s.nextTaskID})
  }

  function At(s: State, w: nat, p: Position, st: WorkerState): State
    requires w < |s.workers|
  {
    s.(workers := s.workers[w := Worker(p, st)])
  }

  /** The timer callback without its `Signal`: the entry becomes ready, or to be skipped if equal work is. */
  function Marked(s: State, id: nat): State
    requires id in s.data
  {
    var t := s.data[id];
    var mark := if SameReady(s.data, t) || SameReady(s.running, t) then Skip else Ready;
    s.(data := s.data[id := t.(state := mark)])
  }

  function Signal(s: State, woken: Option<nat>): State
    requires woken.Some? ==> woken.value < |s.workers|
  {
    match woken
    case None => s
    case Some(w) => s.(workers := s.workers[w := s.workers[w].(at := Signalled)])
  }

  /** `dequeueNoLock` and what `runNext` does with the entry before it unlocks. */
  function Taken(s: State, w: nat, id: nat): State
    requires w < |s.workers| && id in s.data
  {
    var s' := s.(data := s.data - {id});
    if s.data[id].state.Skip? then
      At(s', w, InHand(s.data[id]), s.workers[w].state)
    else
      var t := s.data[id].(assignedWorker := Some(w));
      At(s'.(running := s.running[id := t]), w, Executing(t), WorkerRunning)
  }

  /** `scheduleNextRunOf`. */
  function Rescheduled(s: State, w: nat, runTime: int, skip: bool): State
    requires w < |s.workers| && s.workers[w].at.InHand?
  {
    var t := s.workers[w].at.task;
    var s' := At(s, w, Checking, s.workers[w].state);
    if t.reason.Adhoc? then s'
    else if t.kind.Auth? && skip then s'.(retired := s.retired + {t.source.index})
    else Enqueued(s', NewTask(t.kind, t.source, runTime, Scheduled))
  }

  predicate Enabled(s: State, step: Step) {
    match step
    case BootRefresh(_) => s.boot.EnqueueRefresh? && s.boot.source < |s.sources|
    case BootAuth(_, _) => s.boot.EnqueueAuth? && s.boot.source < |s.sources|
    case StartWorker => s.boot.StartWorkers? && |s.workers| < s.numWorkers
    case AdhocRefresh(i, _) => i < |s.sources|
    case Arm(id) => id in s.unarmed
    case Fire(id, woken) =>
      && id in s.armed
      && (woken.Some? ==> id in s.data && woken.value < |s.workers| && s.workers[woken.value].at.Parked?)
      && (woken.None? && id in s.data ==> forall w | 0 <= w < |s.workers| :: !s.workers[w].at.Parked?)
    case Park(w) =>
      && w < |s.workers| && LooksAtQueue(s.workers[w].at)
      && (forall k | k in s.data && IsFirst(s.data, k) :: s.data[k].state.Pending?)
    case Take(w, id) =>
      && w < |s.workers| && LooksAtQueue(s.workers[w].at)
      && IsFirst(s.data, id) && !s.data[id].state.Pending?
    case FinishRun(w) => w < |s.workers| && s.workers[w].at.Executing?
    case RemoveRunning(w) => w < |s.workers| && s.workers[w].at.Finishing?
    case GoIdle(w) => w < |s.workers| && s.workers[w].at.Removed?
    case Reschedule(w, _, _) => w < |s.workers| && s.workers[w].at.InHand?
  }

  function NextBoot(s: State): Boot
    requires s.boot.EnqueueRefresh? || s.boot.EnqueueAuth?
  {
    if s.boot.EnqueueRefresh? then EnqueueAuth(s.boot.source)
    else if s.boot.source + 1 < |s.sources| then EnqueueRefresh(s.boot.source + 1)
    else StartWorkers
  }

  function Do(s: State, step: Step): State
    requires Enabled(s, step)
  {
    match step
    case BootRefresh(at) =>
      Enqueued(s, NewTask(Refresh, s.sources[s.boot.source], at, Scheduled)).(boot := NextBoot(s))
    case BootAuth(at, skip) =>
      if skip then s.(boot := NextBoot(s), retired := s.retired + {s.boot.source})
      else Enqueued(s, NewTask(Auth, s.sources[s.boot.source], at, Scheduled)).(boot := NextBoot(s))
    case StartWorker => s.(workers := s.workers + [Worker(Checking, WorkerIdle)])
    case AdhocRefresh(i, at) => Enqueued(s, NewTask(Refresh, s.sources[i], at, Adhoc))
    case Arm(id) => s.(unarmed := s.unarmed - {id}, armed := s.armed + {id})
    case Fire(id, woken) =>
      var s' := s.(armed := s.armed - {id});
      if id in s.data then Signal(Marked(s', id), woken) else s'
    case Park(w) => At(s, w, Parked, s.workers[w].state)
    case Take(w, id) => Taken(s, w, id)
    case FinishRun(w) => At(s, w, Finishing(s.workers[w].at.task), WorkerScheduling)
    case RemoveRunning(w) =>
      var t := s.workers[w].at.task;
      At(s.(running := s.running - {t.id}), w, Removed(t), s.workers[w].state)
    case GoIdle(w) => At(s, w, InHand(s.workers[w].at.task), WorkerIdle)
    case Reschedule(w, at, skip) => Rescheduled(s, w, at, skip)
  }

  /** The moment every source has authenticated once. With no source there is nothing to enqueue. */
  predicate Init(s: State) {
    && (forall i | 0 <= i < |s.sources| :: s.sources[i].index == i)
    && s.data == map[] && s.running == map[] && s.armed == {} && s.unarmed == {} && s.workers == []
    && s.retired == {} && s.nextTaskID == 0
    && s.boot == if s.sources == [] then StartWorkers else EnqueueRefresh(0)
  }

  ghost predicate Next(s: State, s': State) {
    exists step :: Enabled(s, step) && s' == Do(s, step)
  }

  /** A run of the machine, of any length. */
  ghost predicate IsRun(trace: seq<State>) {
    && trace != [] && Init(trace[0])
    && forall i | 0 < i < |trace| :: Next(trace[i-1], trace[i])
  }
}
