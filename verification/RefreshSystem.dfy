/** The scheduler together with the caches it refreshes. A worker that executes a refresh goes through
    `Source.Refresh`: it reads the core's cache, populates a new one and installs it (or fails), and applies
    the difference to the global cache. Steps of different workers interleave freely; that no two refreshes
    of one source overlap is not assumed but follows from the scheduler's mutual exclusion. */
module RefreshSystem {
  import opened Options
  import opened Paths
  import opened Caches
  import opened Scheduler
  import opened SchedulerInvariant
  import opened SchedulerTheorems

  /** Where a worker is inside `Source.Refresh`. */
  datatype Refreshing =
    | Outside                // not in `Refresh`, or back from it
    | Begun                  // called, cache not read yet
    | HasOld(prior: Store)    // has read the core's cache, populating
    | Installed(prior: Store) // `SetCache` done, `ApplyDiff` to come

  datatype System = System(
    sched: State,
    cores: seq<Store>,    // what `Core.Cache()` returns, by source
    refreshing: seq<Refreshing>,  // by worker
    global: Store,
    applied: seq<Store>   // history: the cache each source last applied
  )

  datatype SystemStep =
    | Sched(step: Step)
    | ReadOld(worker: nat)
    | PopulateFails(worker: nat)
    | PopulateOk(worker: nat, found: Store)
    | Apply(worker: nat)

  /** A cache as one populate of the named source leaves it. The metadata of a certificate is a function of
      its key. */
  ghost predicate FoundBy(c: Store, name: string, meta: string -> Metadata) {
    && StrictStore(c)
    && (forall k | k in c :: c[k].meta == meta(k))
    && (forall k, p | k in c && p in c[k].paths :: p.source == name)
  }

  predicate ExecutesRefresh(s: State, w: nat) {
    w < |s.workers| && s.workers[w].at.Executing? && s.workers[w].at.task.kind.Refresh?
  }

  function SourceOf(s: State, w: nat): nat
    requires ExecutesRefresh(s, w)
  {
    s.workers[w].at.task.source.index
  }

  predicate Shaped(y: System) {
    && |y.refreshing| == |y.sched.workers|
    && |y.cores| == |y.applied| == |y.sched.sources|
  }

  /** A worker may report a refresh finished only when `Refresh` has returned. */
  ghost predicate CanStep(y: System, step: SystemStep, meta: string -> Metadata)
    requires Shaped(y)
  {
    match step
    case Sched(st) =>
      && Enabled(y.sched, st)
      && (st.FinishRun? && ExecutesRefresh(y.sched, st.worker) ==> y.refreshing[st.worker].Outside?)
    case ReadOld(w) =>
      && ExecutesRefresh(y.sched, w) && SourceOf(y.sched, w) < |y.cores| && y.refreshing[w].Begun?
    case PopulateFails(w) =>
      && ExecutesRefresh(y.sched, w) && SourceOf(y.sched, w) < |y.cores| && y.refreshing[w].HasOld?
    case PopulateOk(w, found) =>
      && ExecutesRefresh(y.sched, w) && SourceOf(y.sched, w) < |y.cores| && y.refreshing[w].HasOld?
      && FoundBy(found, y.sched.sources[SourceOf(y.sched, w)].name, meta)
    case Apply(w) =>
      && ExecutesRefresh(y.sched, w) && SourceOf(y.sched, w) < |y.cores| && y.refreshing[w].Installed?
  }

  /** A scheduler step starts a call of `Refresh` when a worker dequeues a ready refresh. */
  function Entered(y: System, st: Step): seq<Refreshing>
    requires Shaped(y) && Enabled(y.sched, st)
  {
    if st.StartWorker? then y.refreshing + [Outside]
    else if st.Take? && ExecutesRefresh(Do(y.sched, st), st.worker) then y.refreshing[st.worker := Begun]
    else y.refreshing
  }

  ghost function DoStep(y: System, step: SystemStep, meta: string -> Metadata): System
    requires Shaped(y) && CanStep(y, step, meta)
  {
    match step
    case Sched(st) => y.(sched := Do(y.sched, st), refreshing := Entered(y, st))
    case ReadOld(w) => y.(refreshing := y.refreshing[w := HasOld(y.cores[SourceOf(y.sched, w)])])
    case PopulateFails(w) => y.(refreshing := y.refreshing[w := Outside])
    case PopulateOk(w, found) =>
      y.(cores := y.cores[SourceOf(y.sched, w) := found],
         refreshing := y.refreshing[w := Installed(y.refreshing[w].prior)])
    case Apply(w) =>
      var i := SourceOf(y.sched, w);
      y.(global := DiffStore(y.global, y.refreshing[w].prior, y.cores[i]),
         applied := y.applied[i := y.cores[i]],
         refreshing := y.refreshing[w := Outside])
  }

  ghost predicate InitSystem(y: System) {
    && Init(y.sched) && Shaped(y) && y.global == map[]
    && (forall i | 0 <= i < |y.cores| :: y.cores[i] == map[] && y.applied[i] == map[])
  }

  ghost predicate NextSystem(y: System, y': System, meta: string -> Metadata) {
    Shaped(y) && exists step :: CanStep(y, step, meta) && y' == DoStep(y, step, meta)
  }

  ghost predicate IsSystemRun(trace: seq<System>, meta: string -> Metadata) {
    && trace != [] && InitSystem(trace[0])
    && forall i | 0 < i < |trace| :: NextSystem(trace[i-1], trace[i], meta)
  }

  // ---------- invariant

  /** A worker that has the old cache has the one last applied; the core differs from it only between
      `SetCache` and `ApplyDiff`. */
  ghost predicate InFlight(y: System, w: nat)
    requires Shaped(y) && w < |y.refreshing|
  {
    !y.refreshing[w].Outside? ==>
      && ExecutesRefresh(y.sched, w) && SourceOf(y.sched, w) < |y.cores|
      && var i := SourceOf(y.sched, w);
         (y.refreshing[w].HasOld? || y.refreshing[w].Installed? ==> y.refreshing[w].prior == y.applied[i])
  }

  ghost predicate AtRest(y: System, i: nat)
    requires Shaped(y) && i < |y.cores|
  {
    y.cores[i] == y.applied[i] || exists w :: IsInstalling(y, w, i)
  }

  ghost predicate IsInstalling(y: System, w: nat, i: nat)
    requires Shaped(y)
  {
    w < |y.refreshing| && y.refreshing[w].Installed? && ExecutesRefresh(y.sched, w) && SourceOf(y.sched, w) == i
  }

  ghost predicate CachesFound(y: System, meta: string -> Metadata)
    requires Shaped(y)
  {
    forall i | 0 <= i < |y.cores| ::
      FoundBy(y.cores[i], y.sched.sources[i].name, meta) && FoundBy(y.applied[i], y.sched.sources[i].name, meta)
  }

  ghost predicate SystemInvariant(y: System, meta: string -> Metadata) {
    && Shaped(y) && Invariant(y.sched)
    && (forall w | 0 <= w < |y.refreshing| :: InFlight(y, w))
    && (forall i | 0 <= i < |y.cores| :: AtRest(y, i))
    && CachesFound(y, meta)
  }

  /** Two workers that execute a refresh execute it for different sources. */
  lemma OneRefreshPerSource(y: System, w: nat, v: nat)
    requires Invariant(y.sched)
    requires ExecutesRefresh(y.sched, w) && ExecutesRefresh(y.sched, v) && SourceOf(y.sched, w) == SourceOf(y.sched, v)
    ensures w == v
  {
    var s := y.sched;
    assert KnownSource(s, s.workers[w].at.task) && KnownSource(s, s.workers[v].at.task);
    assert s.workers[w].at.task.source == s.workers[v].at.task.source;
    ExclusiveAt(s, w, v);
  }

  // ---------- scheduler steps leave refreshes in progress alone

  lemma StepKeepsExecution(s: State, st: Step, w: nat)
    requires Enabled(s, st) && ExecutesRefresh(s, w) && !(st.FinishRun? && st.worker == w)
    ensures ExecutesRefresh(Do(s, st), w) && Do(s, st).workers[w].at == s.workers[w].at
  {
  }

  lemma StepKeepsSources(s: State, st: Step)
    requires Enabled(s, st)
    ensures Do(s, st).sources == s.sources
    ensures |Do(s, st).workers| == |s.workers| + if st.StartWorker? then 1 else 0
  {
  }

  lemma SchedKeepsFlights(y: System, st: Step, meta: string -> Metadata)
    requires SystemInvariant(y, meta) && CanStep(y, Sched(st), meta)
    ensures var y' := DoStep(y, Sched(st), meta);
            Shaped(y') && (forall w | 0 <= w < |y'.refreshing| :: InFlight(y', w))
  {
    hide Invariant, Do, Enabled, CachesFound;
    var y' := DoStep(y, Sched(st), meta);
    StepKeepsSources(y.sched, st);
    StepKeeps(y.sched, st);
    EnabledFacts(y.sched, st);
    forall w | 0 <= w < |y'.refreshing|
      ensures InFlight(y', w)
    {
      if ExecutesRefresh(y'.sched, w) {
        SourceInRange(y'.sched, w);
      }
      if w < |y.refreshing| {
        assert InFlight(y, w);
        if !y.refreshing[w].Outside? {
          StepKeepsExecution(y.sched, st, w);
        }
      }
    }
  }

  lemma EnabledFacts(s: State, st: Step)
    requires Enabled(s, st)
    ensures st.Take? ==> st.worker < |s.workers|
  {
  }

  lemma SourceInRange(s: State, w: nat)
    requires Invariant(s) && ExecutesRefresh(s, w)
    ensures SourceOf(s, w) < |s.sources| && s.sources[SourceOf(s, w)] == s.workers[w].at.task.source
  {
    assert KnownSource(s, s.workers[w].at.task);
  }

  lemma SchedKeepsRest(y: System, st: Step, meta: string -> Metadata)
    requires SystemInvariant(y, meta) && CanStep(y, Sched(st), meta) && Shaped(DoStep(y, Sched(st), meta))
    ensures var y' := DoStep(y, Sched(st), meta); forall i | 0 <= i < |y'.cores| :: AtRest(y', i)
  {
    hide Invariant, Do, Enabled, CachesFound;
    var y' := DoStep(y, Sched(st), meta);
    EnabledFacts(y.sched, st);
    forall i | 0 <= i < |y'.cores|
      ensures AtRest(y', i)
    {
      assert AtRest(y, i);
      if y.cores[i] != y.applied[i] {
        var w :| IsInstalling(y, w, i);
        StepKeepsExecution(y.sched, st, w);
        if st.Take? && st.worker == w {
          TakersAreFree(y.sched, st);
        }
        assert IsInstalling(y', w, i);
      }
    }
  }

  lemma TakersAreFree(s: State, st: Step)
    requires Enabled(s, st) && st.Take?
    ensures !ExecutesRefresh(s, st.worker)
  {
  }

  lemma SchedKeeps(y: System, st: Step, meta: string -> Metadata)
    requires SystemInvariant(y, meta) && CanStep(y, Sched(st), meta)
    ensures SystemInvariant(DoStep(y, Sched(st), meta), meta)
  {
    StepKeepsSources(y.sched, st);
    StepKeeps(y.sched, st);
    SchedKeepsFlights(y, st, meta);
    SchedKeepsRest(y, st, meta);
    hide Invariant, Do, Enabled, FoundBy, InFlight, AtRest;
  }

  // ---------- steps inside `Refresh`

  lemma ReadOldKeeps(y: System, w: nat, meta: string -> Metadata)
    requires SystemInvariant(y, meta) && CanStep(y, ReadOld(w), meta)
    ensures SystemInvariant(DoStep(y, ReadOld(w), meta), meta)
  {
    hide Invariant, FoundBy;
    var y' := DoStep(y, ReadOld(w), meta);
    var i := SourceOf(y.sched, w);
    assert AtRest(y, i);
    if y.cores[i] != y.applied[i] {
      var v :| IsInstalling(y, v, i);
      OneRefreshPerSource(y, w, v);
    }
    forall v | 0 <= v < |y'.refreshing|
      ensures InFlight(y', v)
    {
      assert InFlight(y, v);
    }
    RestUnlessInstalling(y, y', w);
  }

  /** Changing the phase of a worker that is not installing disturbs no source. */
  lemma RestUnlessInstalling(y: System, y': System, w: nat)
    requires Shaped(y) && Shaped(y') && w < |y.refreshing| && !y.refreshing[w].Installed?
    requires y'.sched == y.sched && y'.cores == y.cores && y'.applied == y.applied
    requires forall v | 0 <= v < |y.refreshing| && v != w :: y'.refreshing[v] == y.refreshing[v]
    requires forall i | 0 <= i < |y.cores| :: AtRest(y, i)
    ensures forall i | 0 <= i < |y'.cores| :: AtRest(y', i)
  {
    forall i | 0 <= i < |y'.cores|
      ensures AtRest(y', i)
    {
      assert AtRest(y, i);
      if y.cores[i] != y.applied[i] {
        var v :| IsInstalling(y, v, i);
        assert IsInstalling(y', v, i);
      }
    }
  }

  lemma PopulateFailsKeeps(y: System, w: nat, meta: string -> Metadata)
    requires SystemInvariant(y, meta) && CanStep(y, PopulateFails(w), meta)
    ensures SystemInvariant(DoStep(y, PopulateFails(w), meta), meta)
  {
    hide Invariant, FoundBy;
    var y' := DoStep(y, PopulateFails(w), meta);
    forall v | 0 <= v < |y'.refreshing|
      ensures InFlight(y', v)
    {
      assert InFlight(y, v);
    }
    RestUnlessInstalling(y, y', w);
  }

  lemma PopulateOkKeeps(y: System, w: nat, found: Store, meta: string -> Metadata)
    requires SystemInvariant(y, meta) && CanStep(y, PopulateOk(w, found), meta)
    ensures SystemInvariant(DoStep(y, PopulateOk(w, found), meta), meta)
  {
    hide Invariant, FoundBy;
    var y' := DoStep(y, PopulateOk(w, found), meta);
    var i := SourceOf(y.sched, w);
    forall v | 0 <= v < |y'.refreshing|
      ensures InFlight(y', v)
    {
      assert InFlight(y, v);
    }
    forall j | 0 <= j < |y'.cores|
      ensures AtRest(y', j)
    {
      assert AtRest(y, j);
      if j == i {
        assert IsInstalling(y', w, i);
      } else if y.cores[j] != y.applied[j] {
        var v :| IsInstalling(y, v, j);
        assert IsInstalling(y', v, j);
      }
    }
  }

  lemma ApplyKeeps(y: System, w: nat, meta: string -> Metadata)
    requires SystemInvariant(y, meta) && CanStep(y, Apply(w), meta)
    ensures SystemInvariant(DoStep(y, Apply(w), meta), meta)
  {
    hide Invariant, FoundBy;
    var y' := DoStep(y, Apply(w), meta);
    var i := SourceOf(y.sched, w);
    assert InFlight(y, w);
    forall v | 0 <= v < |y'.refreshing|
      ensures InFlight(y', v)
    {
      assert InFlight(y, v);
      if v != w && !y.refreshing[v].Outside? && SourceOf(y.sched, v) == i {
        OneRefreshPerSource(y, w, v);
      }
    }
    forall j | 0 <= j < |y'.cores|
      ensures AtRest(y', j)
    {
      assert AtRest(y, j);
      if j != i && y.cores[j] != y.applied[j] {
        var v :| IsInstalling(y, v, j);
        assert IsInstalling(y', v, j);
      }
    }
  }

  lemma InitSystemKeeps(y: System, meta: string -> Metadata)
    requires InitSystem(y)
    ensures SystemInvariant(y, meta)
  {
    InitKeeps(y.sched);
    hide Invariant;
  }

  lemma SystemStepKeeps(y: System, step: SystemStep, meta: string -> Metadata)
    requires SystemInvariant(y, meta) && CanStep(y, step, meta)
    ensures SystemInvariant(DoStep(y, step, meta), meta)
  {
    hide SystemInvariant, DoStep;
    match step
    case Sched(st) => SchedKeeps(y, st, meta);
    case ReadOld(w) => ReadOldKeeps(y, w, meta);
    case PopulateFails(w) => PopulateFailsKeeps(y, w, meta);
    case PopulateOk(w, found) => PopulateOkKeeps(y, w, found, meta);
    case Apply(w) => ApplyKeeps(y, w, meta);
  }

  lemma {:induction false} SystemRunKeeps(trace: seq<System>, i: nat, meta: string -> Metadata)
    requires IsSystemRun(trace, meta) && i < |trace|
    ensures SystemInvariant(trace[i], meta)
  {
    hide SystemInvariant, DoStep, CanStep, InitSystem;
    if i == 0 {
      InitSystemKeeps(trace[0], meta);
    } else {
      SystemRunKeeps(trace, i - 1, meta);
      assert NextSystem(trace[i-1], trace[i], meta);
      var step :| CanStep(trace[i-1], step, meta) && trace[i] == DoStep(trace[i-1], step, meta);
      SystemStepKeeps(trace[i-1], step, meta);
    }
  }

  // ---------- the heart: when the diffed global cache is the union again

  /** The paths some source's last applied cache lists for a key. */
  ghost function UnionAt(applied: seq<Store>, k: string): set<PathObject> {
    set i, p | 0 <= i < |applied| && p in PathsAt(applied[i], k) :: p
  }

  ghost predicate IsSetUnion(global: Store, applied: seq<Store>) {
    forall k :: PathsAt(global, k) == UnionAt(applied, k)
  }

  /** The global cache is the union of what the sources last applied, sorted, with no entry to spare. */
  ghost predicate IsUnion(global: Store, applied: seq<Store>, meta: string -> Metadata) {
    && StrictStore(global)
    && (forall k | k in global :: global[k].meta == meta(k))
    && IsSetUnion(global, applied)
  }

  ghost function OthersAt(applied: seq<Store>, i: nat, k: string): set<PathObject> {
    set j, p | 0 <= j < |applied| && j != i && p in PathsAt(applied[j], k) :: p
  }

  lemma SplitUnion(applied: seq<Store>, i: nat, k: string, found: Store)
    requires i < |applied|
    ensures UnionAt(applied, k) == OthersAt(applied, i, k) + PathsAt(applied[i], k)
    ensures UnionAt(applied[i := found], k) == OthersAt(applied, i, k) + PathsAt(found, k)
  {
    hide PathsAt;
    var applied' := applied[i := found];
    forall p
      ensures p in UnionAt(applied, k) <==> p in OthersAt(applied, i, k) + PathsAt(applied[i], k)
    {
    }
    forall p
      ensures p in UnionAt(applied', k) <==> p in OthersAt(applied, i, k) + PathsAt(found, k)
    {
      if p in OthersAt(applied, i, k) {
        var j :| 0 <= j < |applied| && j != i && p in PathsAt(applied[j], k);
        assert applied'[j] == applied[j];
      }
      if p in PathsAt(found, k) {
        assert applied'[i] == found;
      }
    }
  }

  /** Exactly when applying the diff of one source keeps the union at a key: no other source lists a path that
      this one stops listing. Nothing is asked of names, nor of the order of the global cache. */
  lemma ApplyAtIff(global: Store, applied: seq<Store>, i: nat, n: Store, k: string)
    requires i < |applied| && StrictStore(applied[i]) && StrictStore(n) && PathsAt(global, k) == UnionAt(applied, k)
    ensures PathsAt(DiffStore(global, applied[i], n), k) == UnionAt(applied[i := n], k)
            <==> OthersAt(applied, i, k) !! (PathsAt(applied[i], k) - PathsAt(n, k))
  {
    hide UnionAt, OthersAt, DiffEntry, DiffStore, StrictlyOrdered;
    var o := applied[i];
    SplitUnion(applied, i, k, n);
    DiffEntrySet(Lookup(global, k), Lookup(o, k), Lookup(n, k));
    LookupPaths(DiffStore(global, o, n), k);
    LookupPaths(global, k);
    LookupPaths(o, k);
    LookupPaths(n, k);
    hide PathsAt, PathsOf;
  }

  lemma LookupPaths(m: Store, k: string)
    ensures PathsOf(Lookup(m, k)) == PathsAt(m, k)
  {
  }

  /** Between two moments no source stops listing a path that another source lists. */
  ghost predicate DropsNothingShared(applied: seq<Store>, applied': seq<Store>) {
    && |applied'| == |applied|
    && forall i, k | 0 <= i < |applied| :: OthersAt(applied, i, k) !! (PathsAt(applied[i], k) - PathsAt(applied'[i], k))
  }

  lemma NothingDropped(applied: seq<Store>)
    ensures DropsNothingShared(applied, applied)
  {
    hide OthersAt, PathsAt;
  }

  lemma OneSourceDrops(applied: seq<Store>, i: nat, n: Store)
    requires i < |applied|
    ensures DropsNothingShared(applied, applied[i := n]) <==>
            forall k :: OthersAt(applied, i, k) !! (PathsAt(applied[i], k) - PathsAt(n, k))
  {
    hide OthersAt, PathsAt;
    var applied' := applied[i := n];
    if forall k :: OthersAt(applied, i, k) !! (PathsAt(applied[i], k) - PathsAt(n, k)) {
      forall j, k | 0 <= j < |applied|
        ensures OthersAt(applied, j, k) !! (PathsAt(applied[j], k) - PathsAt(applied'[j], k))
      {
        assert j != i ==> applied'[j] == applied[j];
      }
    }
    if DropsNothingShared(applied, applied') {
      forall k
        ensures OthersAt(applied, i, k) !! (PathsAt(applied[i], k) - PathsAt(n, k))
      {
        assert applied'[i] == n;
      }
    }
  }

  lemma ApplySetIff(global: Store, applied: seq<Store>, i: nat, n: Store)
    requires i < |applied| && StrictStore(applied[i]) && StrictStore(n) && IsSetUnion(global, applied)
    ensures IsSetUnion(DiffStore(global, applied[i], n), applied[i := n])
            <==> DropsNothingShared(applied, applied[i := n])
  {
    hide UnionAt, OthersAt, PathsAt, DiffStore, StrictStore, DropsNothingShared;
    OneSourceDrops(applied, i, n);
    forall k
      ensures PathsAt(DiffStore(global, applied[i], n), k) == UnionAt(applied[i := n], k)
              <==> OthersAt(applied, i, k) !! (PathsAt(applied[i], k) - PathsAt(n, k))
    {
      ApplyAtIff(global, applied, i, n, k);
    }
  }

  /** A step from a moment at which the global cache has the right paths leads to another such moment exactly if
      it drops nothing shared. */
  lemma StepSetUnionIff(y: System, step: SystemStep, meta: string -> Metadata)
    requires SystemInvariant(y, meta) && CanStep(y, step, meta) && IsSetUnion(y.global, y.applied)
    ensures var y' := DoStep(y, step, meta);
            IsSetUnion(y'.global, y'.applied) <==> DropsNothingShared(y.applied, y'.applied)
  {
    hide Invariant, IsSetUnion, DropsNothingShared, StrictStore, Do, Enabled;
    if step.Apply? {
      AppliesStrict(y, step.worker, meta);
      var i := SourceOf(y.sched, step.worker);
      ApplySetIff(y.global, y.applied, i, y.cores[i]);
    } else {
      NothingDropped(y.applied);
    }
  }

  /** What an `ApplyDiff` is given. */
  lemma AppliesStrict(y: System, w: nat, meta: string -> Metadata)
    requires SystemInvariant(y, meta) && CanStep(y, Apply(w), meta)
    ensures var i := SourceOf(y.sched, w);
            && y.refreshing[w].prior == y.applied[i] && StrictStore(y.applied[i]) && StrictStore(y.cores[i])
            && forall k | k in y.cores[i] :: y.cores[i][k].meta == meta(k)
  {
    hide Invariant, StrictStore, Do, Enabled;
    var i := SourceOf(y.sched, w);
    assert InFlight(y, w);
    assert FoundBy(y.cores[i], y.sched.sources[i].name, meta) && FoundBy(y.applied[i], y.sched.sources[i].name, meta);
  }

  /** The exact condition over whole runs, for any names, for the sets of paths: they have been the union at every
      moment so far if and only if so far no source stopped listing a path that another source lists. */
  lemma {:induction false} SetUnionThroughoutIff(trace: seq<System>, i: nat, meta: string -> Metadata)
    requires IsSystemRun(trace, meta) && i < |trace|
    ensures (forall j | 0 <= j <= i :: IsSetUnion(trace[j].global, trace[j].applied)) <==>
            (forall j | 0 <= j < i :: DropsNothingShared(trace[j].applied, trace[j+1].applied))
  {
    hide IsSetUnion, DropsNothingShared, SystemInvariant, DoStep, CanStep;
    if i == 0 {
      InitUnion(trace[0], meta);
      hide IsUnion;
    } else {
      SetUnionThroughoutIff(trace, i - 1, meta);
      SystemRunKeeps(trace, i - 1, meta);
      assert NextSystem(trace[i-1], trace[i], meta);
      var step :| CanStep(trace[i-1], step, meta) && trace[i] == DoStep(trace[i-1], step, meta);
      if IsSetUnion(trace[i-1].global, trace[i-1].applied) {
        StepSetUnionIff(trace[i-1], step, meta);
      }
      assert DropsNothingShared(trace[i-1].applied, trace[(i-1)+1].applied)
        <==> DropsNothingShared(trace[i-1].applied, trace[i].applied);
    }
  }

  lemma InitUnion(y: System, meta: string -> Metadata)
    requires InitSystem(y)
    ensures IsSetUnion(y.global, y.applied) && IsUnion(y.global, y.applied, meta)
  {
    forall k
      ensures PathsAt(y.global, k) == UnionAt(y.applied, k)
    {
    }
  }

  // ---------- the same with order, and no path listed twice

  /** What a source newly lists of what stays listed comes first on both sides: `addNewFrom` finds it. */
  ghost predicate AddsInOrderAt(others: set<PathObject>, before: set<PathObject>, after: set<PathObject>) {
    SharedFirst(others + before * after, after - before)
  }

  ghost predicate AddsInOrder(applied: seq<Store>, applied': seq<Store>) {
    && |applied'| == |applied|
    && forall i, k | 0 <= i < |applied| ::
         AddsInOrderAt(OthersAt(applied, i, k), PathsAt(applied[i], k), PathsAt(applied'[i], k))
  }

  lemma NothingNew(others: set<PathObject>, before: set<PathObject>)
    ensures AddsInOrderAt(others, before, before)
  {
    hide LessThan;
    assert before - before == {};
  }

  lemma NothingOfOthers(others: set<PathObject>, before: set<PathObject>, after: set<PathObject>)
    requires others !! after
    ensures AddsInOrderAt(others, before, after)
  {
    hide LessThan;
    assert (others + before * after) * (after - before) == {};
  }

  lemma NothingAdded(applied: seq<Store>)
    ensures AddsInOrder(applied, applied)
  {
    hide OthersAt, PathsAt, AddsInOrderAt;
    forall i, k | 0 <= i < |applied|
      ensures AddsInOrderAt(OthersAt(applied, i, k), PathsAt(applied[i], k), PathsAt(applied[i], k))
    {
      NothingNew(OthersAt(applied, i, k), PathsAt(applied[i], k));
    }
  }

  lemma OneSourceAdds(applied: seq<Store>, i: nat, n: Store)
    requires i < |applied|
    ensures AddsInOrder(applied, applied[i := n]) <==>
            forall k :: AddsInOrderAt(OthersAt(applied, i, k), PathsAt(applied[i], k), PathsAt(n, k))
  {
    hide OthersAt, PathsAt, AddsInOrderAt;
    var applied' := applied[i := n];
    if forall k :: AddsInOrderAt(OthersAt(applied, i, k), PathsAt(applied[i], k), PathsAt(n, k)) {
      forall j, k | 0 <= j < |applied|
        ensures AddsInOrderAt(OthersAt(applied, j, k), PathsAt(applied[j], k), PathsAt(applied'[j], k))
      {
        if j != i {
          NothingNew(OthersAt(applied, j, k), PathsAt(applied[j], k));
        }
      }
    }
    if AddsInOrder(applied, applied') {
      forall k
        ensures AddsInOrderAt(OthersAt(applied, i, k), PathsAt(applied[i], k), PathsAt(n, k))
      {
        assert applied'[i] == n;
      }
    }
  }

  lemma LookupStrict(m: Store, k: string)
    requires StrictStore(m)
    ensures StrictEntry(Lookup(m, k))
  {
  }

  lemma StrictByEntries(m: Store)
    ensures StrictStore(m) <==> forall k :: StrictEntry(Lookup(m, k))
  {
    hide StrictlyOrdered;
    if forall k :: StrictEntry(Lookup(m, k)) {
      forall k | k in m
        ensures StrictlyOrdered(m[k].paths) && m[k].paths != []
      {
        assert StrictEntry(Lookup(m, k));
      }
    }
  }

  lemma KeptAndAdded(others: set<PathObject>, before: set<PathObject>, after: set<PathObject>)
    requires others !! (before - after)
    ensures (others + before) - (before - after) == others + before * after
    ensures (others + before * after) + (after - before) == others + after
    ensures after != {} ==> others + after != {}
  {
  }

  /** Exactly when applying the diff of one source leaves an entry in order, without a path listed twice. */
  lemma ApplyStrictAtIff(global: Store, applied: seq<Store>, i: nat, n: Store, k: string)
    requires i < |applied| && StrictStore(global) && StrictStore(applied[i]) && StrictStore(n)
    requires PathsAt(global, k) == UnionAt(applied, k)
    requires OthersAt(applied, i, k) !! (PathsAt(applied[i], k) - PathsAt(n, k))
    ensures StrictEntry(Lookup(DiffStore(global, applied[i], n), k))
            <==> AddsInOrderAt(OthersAt(applied, i, k), PathsAt(applied[i], k), PathsAt(n, k))
  {
    var g, o, others := global, applied[i], OthersAt(applied, i, k);
    SplitUnion(applied, i, k, n);
    hide UnionAt, OthersAt, DiffEntry, DiffStore, StrictStore, StrictEntry, SharedFirst, PathsOf, PathsAt;
    LookupStrict(g, k);
    LookupStrict(o, k);
    LookupStrict(n, k);
    LookupPaths(g, k);
    LookupPaths(o, k);
    LookupPaths(n, k);
    DiffEntryStrictIff(Lookup(g, k), Lookup(o, k), Lookup(n, k));
    StrictEntryPresent(Lookup(n, k));
    KeptAndAdded(others, PathsAt(o, k), PathsAt(n, k));
    assert Lookup(DiffStore(g, o, n), k) == DiffEntry(Lookup(g, k), Lookup(o, k), Lookup(n, k));
    if PathsAt(n, k) == {} {
      NothingOfOthers(others, PathsAt(o, k), PathsAt(n, k));
    }
  }

  /** Exactly when applying the diff of one source keeps the union in full. */
  lemma ApplyIff(global: Store, applied: seq<Store>, i: nat, n: Store)
    requires i < |applied| && StrictStore(global) && StrictStore(applied[i]) && StrictStore(n)
    requires IsSetUnion(global, applied)
    ensures var r := DiffStore(global, applied[i], n);
            StrictStore(r) && IsSetUnion(r, applied[i := n]) <==>
            DropsNothingShared(applied, applied[i := n]) && AddsInOrder(applied, applied[i := n])
  {
    var r := DiffStore(global, applied[i], n);
    hide UnionAt, OthersAt, PathsAt, DiffStore, StrictStore, DropsNothingShared, AddsInOrder, AddsInOrderAt,
      StrictEntry;
    ApplySetIff(global, applied, i, n);
    if DropsNothingShared(applied, applied[i := n]) {
      StrictByEntries(r);
      OneSourceAdds(applied, i, n);
      OneSourceDrops(applied, i, n);
      forall k
        ensures StrictEntry(Lookup(r, k))
                <==> AddsInOrderAt(OthersAt(applied, i, k), PathsAt(applied[i], k), PathsAt(n, k))
      {
        ApplyStrictAtIff(global, applied, i, n, k);
      }
    }
    hide IsSetUnion;
  }

  /** If other sources have nothing in common with what the source found before and finds now. */
  lemma ApplyApart(global: Store, applied: seq<Store>, i: nat, n: Store)
    requires i < |applied| && StrictStore(global) && StrictStore(applied[i]) && StrictStore(n)
    requires IsSetUnion(global, applied)
    requires forall k :: OthersAt(applied, i, k) !! PathsAt(applied[i], k) && OthersAt(applied, i, k) !! PathsAt(n, k)
    ensures var r := DiffStore(global, applied[i], n);
            StrictStore(r) && IsSetUnion(r, applied[i := n])
  {
    hide UnionAt, DiffStore, StrictStore, OthersAt, PathsAt, DropsNothingShared, AddsInOrder, AddsInOrderAt, IsSetUnion;
    forall k
      ensures OthersAt(applied, i, k) !! (PathsAt(applied[i], k) - PathsAt(n, k))
      ensures AddsInOrderAt(OthersAt(applied, i, k), PathsAt(applied[i], k), PathsAt(n, k))
    {
      NothingOfOthers(OthersAt(applied, i, k), PathsAt(applied[i], k), PathsAt(n, k));
    }
    OneSourceDrops(applied, i, n);
    OneSourceAdds(applied, i, n);
    ApplyIff(global, applied, i, n);
  }

  /** A step from a moment at which the global cache is the union leads to another such moment exactly if it drops
      nothing shared and adds in order. */
  lemma StepUnionIff(y: System, step: SystemStep, meta: string -> Metadata)
    requires SystemInvariant(y, meta) && CanStep(y, step, meta) && IsUnion(y.global, y.applied, meta)
    ensures var y' := DoStep(y, step, meta);
            IsUnion(y'.global, y'.applied, meta) <==>
            DropsNothingShared(y.applied, y'.applied) && AddsInOrder(y.applied, y'.applied)
  {
    hide Invariant, IsSetUnion, DropsNothingShared, AddsInOrder, StrictStore, Do, Enabled, DiffStore;
    if step.Apply? {
      AppliesStrict(y, step.worker, meta);
      var i := SourceOf(y.sched, step.worker);
      DiffMetadata(y.global, y.applied[i], y.cores[i], meta);
      ApplyIff(y.global, y.applied, i, y.cores[i]);
    } else {
      NothingDropped(y.applied);
      NothingAdded(y.applied);
    }
  }

  /** The exact condition over whole runs, for any names: the global cache has been the union, strictly sorted, at
      every moment so far if and only if so far no source stopped listing a path that another source lists, and
      whatever a source newly listed of what was listed already came first. */
  lemma {:induction false} UnionThroughoutIff(trace: seq<System>, i: nat, meta: string -> Metadata)
    requires IsSystemRun(trace, meta) && i < |trace|
    ensures (forall j | 0 <= j <= i :: IsUnion(trace[j].global, trace[j].applied, meta)) <==>
            (forall j | 0 <= j < i :: DropsNothingShared(trace[j].applied, trace[j+1].applied)
                                      && AddsInOrder(trace[j].applied, trace[j+1].applied))
  {
    hide IsUnion, DropsNothingShared, AddsInOrder, SystemInvariant, DoStep, CanStep;
    if i == 0 {
      InitUnion(trace[0], meta);
    } else {
      UnionThroughoutIff(trace, i - 1, meta);
      SystemRunKeeps(trace, i - 1, meta);
      assert NextSystem(trace[i-1], trace[i], meta);
      var step :| CanStep(trace[i-1], step, meta) && trace[i] == DoStep(trace[i-1], step, meta);
      if IsUnion(trace[i-1].global, trace[i-1].applied, meta) {
        StepUnionIff(trace[i-1], step, meta);
      }
      assert DropsNothingShared(trace[i-1].applied, trace[(i-1)+1].applied)
        <==> DropsNothingShared(trace[i-1].applied, trace[i].applied);
      assert AddsInOrder(trace[i-1].applied, trace[(i-1)+1].applied)
        <==> AddsInOrder(trace[i-1].applied, trace[i].applied);
    }
  }

  /** Entries keep their metadata through a diff. */
  lemma DiffMetadata(g: Store, o: Store, n: Store, meta: string -> Metadata)
    requires (forall k | k in g :: g[k].meta == meta(k)) && (forall k | k in n :: n[k].meta == meta(k))
    ensures forall k | k in DiffStore(g, o, n) :: DiffStore(g, o, n)[k].meta == meta(k)
  {
    hide DiffEntry, DiffStore;
    var r := DiffStore(g, o, n);
    forall k | k in r
      ensures r[k].meta == meta(k)
    {
      EntryMetadata(Lookup(g, k), Lookup(o, k), Lookup(n, k), meta(k));
      assert Lookup(r, k) == DiffEntry(Lookup(g, k), Lookup(o, k), Lookup(n, k));
    }
  }

  lemma EntryMetadata(g: Option<CacheObject>, o: Option<CacheObject>, n: Option<CacheObject>, m: Metadata)
    requires (g.Some? ==> g.value.meta == m) && (n.Some? ==> n.value.meta == m)
    ensures DiffEntry(g, o, n).Some? ==> DiffEntry(g, o, n).value.meta == m
  {
    hide Merged, Without, Minus;
  }

  // ---------- different names: nothing is shared, and the union is kept in full

  ghost predicate NamesDistinct(y: System) {
    forall i, j | 0 <= i < |y.sched.sources| && 0 <= j < |y.sched.sources|
      && y.sched.sources[i].name == y.sched.sources[j].name :: i == j
  }

  lemma FoundUnder(c: Store, name: string, meta: string -> Metadata, k: string, p: PathObject)
    requires FoundBy(c, name, meta) && p in PathsAt(c, k)
    ensures p.source == name
  {
  }

  /** Paths carry the name of their source, so what other sources list is apart from what this one lists. */
  lemma OthersApart(y: System, i: nat, c: Store, k: string, meta: string -> Metadata)
    requires Shaped(y) && NamesDistinct(y) && CachesFound(y, meta) && i < |y.applied|
    requires FoundBy(c, y.sched.sources[i].name, meta)
    ensures OthersAt(y.applied, i, k) !! PathsAt(c, k)
  {
    forall p | p in OthersAt(y.applied, i, k)
      ensures p !in PathsAt(c, k)
    {
      var j :| 0 <= j < |y.applied| && j != i && p in PathsAt(y.applied[j], k);
      assert FoundBy(y.applied[j], y.sched.sources[j].name, meta);
      FoundUnder(y.applied[j], y.sched.sources[j].name, meta, k, p);
    }
    forall p | p in PathsAt(c, k)
      ensures p.source == y.sched.sources[i].name
    {
      FoundUnder(c, y.sched.sources[i].name, meta, k, p);
    }
  }

  lemma ApplyUnion(y: System, i: nat, meta: string -> Metadata)
    requires Shaped(y) && NamesDistinct(y) && CachesFound(y, meta) && i < |y.applied|
    requires IsUnion(y.global, y.applied, meta)
    ensures IsUnion(DiffStore(y.global, y.applied[i], y.cores[i]), y.applied[i := y.cores[i]], meta)
  {
    hide UnionAt, DiffStore, StrictStore, OthersAt, PathsAt, IsSetUnion;
    var o, n := y.applied[i], y.cores[i];
    assert FoundBy(n, y.sched.sources[i].name, meta) && FoundBy(o, y.sched.sources[i].name, meta);
    forall k
      ensures OthersAt(y.applied, i, k) !! PathsAt(o, k) && OthersAt(y.applied, i, k) !! PathsAt(n, k)
    {
      OthersApart(y, i, o, k, meta);
      OthersApart(y, i, n, k, meta);
    }
    ApplyApart(y.global, y.applied, i, n);
    DiffMetadata(y.global, o, n, meta);
  }

  lemma StepKeepsUnion(y: System, step: SystemStep, meta: string -> Metadata)
    requires SystemInvariant(y, meta) && CanStep(y, step, meta) && NamesDistinct(y)
             && IsUnion(y.global, y.applied, meta)
    ensures var y' := DoStep(y, step, meta); NamesDistinct(y') && IsUnion(y'.global, y'.applied, meta)
  {
    hide Invariant, IsUnion, FoundBy, Do, Enabled;
    match step
    case Sched(st) => StepKeepsSources(y.sched, st);
    case ReadOld(w) =>
    case PopulateFails(w) =>
    case PopulateOk(w, found) =>
    case Apply(w) =>
      assert InFlight(y, w);
      ApplyUnion(y, SourceOf(y.sched, w), meta);
  }

  lemma {:induction false} RunKeepsUnion(trace: seq<System>, i: nat, meta: string -> Metadata)
    requires IsSystemRun(trace, meta) && NamesDistinct(trace[0]) && i < |trace|
    ensures NamesDistinct(trace[i]) && IsUnion(trace[i].global, trace[i].applied, meta)
  {
    hide SystemInvariant, DoStep, CanStep, NamesDistinct;
    if i == 0 {
      InitUnion(trace[0], meta);
    } else {
      hide InitSystem, IsUnion;
      RunKeepsUnion(trace, i - 1, meta);
      SystemRunKeeps(trace, i - 1, meta);
      assert NextSystem(trace[i-1], trace[i], meta);
      var step :| CanStep(trace[i-1], step, meta) && trace[i] == DoStep(trace[i-1], step, meta);
      StepKeepsUnion(trace[i-1], step, meta);
    }
  }

  /** Incremental equals recomputed: if names differ, then at every moment of every run, for each key the global
      cache lists exactly the paths that the sources' last applied caches list, strictly sorted, and it has no
      other keys. */
  lemma IncrementalEqualsRecomputed(trace: seq<System>, i: nat, meta: string -> Metadata)
    requires IsSystemRun(trace, meta) && NamesDistinct(trace[0]) && i < |trace|
    ensures var y := trace[i];
            && IsUnion(y.global, y.applied, meta)
            && forall k :: k in y.global <==> UnionAt(y.applied, k) != {}
  {
    RunKeepsUnion(trace, i, meta);
    var y := trace[i];
    forall k
      ensures k in y.global <==> PathsAt(y.global, k) != {}
    {
      if k in y.global {
        assert y.global[k].paths[0] in PathsAt(y.global, k);
      }
    }
  }
}
