/** Queue entries of `server/scheduler.go` and the order they are kept in. */
module Tasks {
  import opened Options

  datatype TaskKind = Auth | Refresh
  datatype RunReason = Scheduled | Adhoc
  datatype TaskState = Pending | Ready | Skip

  /** A source is known by its place in the manager's list; its name is the name of its core. */
  datatype SourceRef = SourceRef(index: nat, name: string)

  datatype Task = Task(
    id: nat,
    kind: TaskKind,
    source: SourceRef,
    runTime: int,
    reason: RunReason,
    state: TaskState,
    assignedWorker: Option<nat>
  )

  /** The numbers behind the constants: the larger state and the smaller kind go first. */
  function StateOrder(s: TaskState): int {
    match s
    case Pending => 0
    case Ready => 1
    case Skip => 2
  }

  function KindOrder(k: TaskKind): int {
    match k
    case Auth => 0
    case Refresh => 1
  }

  /** The comparator handed to `sort.Slice`. */
  predicate Before(a: Task, b: Task) {
    if a.state != b.state then StateOrder(a.state) > StateOrder(b.state)
    else if a.kind != b.kind then KindOrder(a.kind) < KindOrder(b.kind)
    else if a.runTime != b.runTime then a.runTime < b.runTime
    else a.id < b.id
  }

  /** The entry that leaves first: those to be skipped before those that are ready before pending ones, then
      authentications before refreshes, then the earlier time, then the smaller id. */
  predicate Foremost(e: Task, s: set<Task>) {
    e in s && forall x | x in s && x.id != e.id ::
      && (x.state.Skip? ==> e.state.Skip?)
      && (x.state.Ready? ==> !e.state.Pending?)
      && (x.state == e.state && x.kind.Auth? ==> e.kind.Auth?)
      && (x.state == e.state && x.kind == e.kind ==> e.runTime <= x.runTime)
      && (x.state == e.state && x.kind == e.kind && x.runTime == e.runTime ==> e.id < x.id)
  }

  /** Two entries are the same work if they name the same source and are of the same kind. */
  predicate SameWork(a: Task, b: Task) {
    a.source.name == b.source.name && a.kind == b.kind
  }

  /** The comparator is a strict order, total on entries whose ids differ. */
  lemma BeforeIsStrictTotalOrder(a: Task, b: Task, c: Task)
    ensures !Before(a, a)
    ensures Before(a, b) && Before(b, c) ==> Before(a, c)
    ensures a.id != b.id ==> Before(a, b) || Before(b, a)
    ensures !(Before(a, b) && Before(b, a))
  {
  }
}
