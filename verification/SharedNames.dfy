/** A whole run in which the global cache is not the union of its sources: two backends with one name, which the
    configuration allows (two unnamed backends of one type). */
module SharedNames {
  import opened Options
  import opened Paths
  import opened Caches
  import opened Tasks
  import opened Scheduler
  import opened RefreshSystem

  ghost predicate Reachable(y: System, meta: string -> Metadata) {
    exists trace: seq<System> :: IsRunTo(trace, y, meta)
  }

  ghost predicate IsRunTo(trace: seq<System>, y: System, meta: string -> Metadata) {
    IsSystemRun(trace, meta) && trace[|trace|-1] == y
  }

  lemma ReachInit(y: System, meta: string -> Metadata)
    requires InitSystem(y)
    ensures Reachable(y, meta)
  {
    assert IsRunTo([y], y, meta);
  }

  lemma Reach(y: System, step: SystemStep, meta: string -> Metadata)
    requires Reachable(y, meta) && Shaped(y) && CanStep(y, step, meta)
    ensures Reachable(DoStep(y, step, meta), meta)
  {
    hide InitSystem, CanStep, DoStep, Shaped;
    var y' := DoStep(y, step, meta);
    var trace :| IsRunTo(trace, y, meta);
    assert NextSystem(y, y', meta);
    var longer := trace + [y'];
    forall i | 0 < i < |longer|
      ensures NextSystem(longer[i-1], longer[i], meta)
    {
      assert i < |trace| ==> longer[i-1] == trace[i-1] && longer[i] == trace[i];
    }
    assert IsRunTo(longer, y', meta);
  }

  // ---------- one refresh, from the timer to the end

  /** Nothing is going on, and a pending refresh and a worker that looks at the queue are there. */
  ghost predicate Quiet(y: System, w: nat, id: nat) {
    var s := y.sched;
    && Shaped(y) && s.running == map[] && w < |s.workers|
    && (forall v | 0 <= v < |s.workers| :: !s.workers[v].at.Parked?)
    && s.workers[w].at.Checking? && y.refreshing[w].Outside?
    && (forall k | k in s.data :: s.data[k].state.Pending?)
    && id in s.unarmed && id in s.data && s.data[id].id == id && s.data[id].kind.Refresh?
    && s.data[id].source.index < |s.sources|
    && y.cores[s.data[id].source.index] == y.applied[s.data[id].source.index]
  }

  function Executed(s: State, w: nat, id: nat): State
    requires w < |s.workers| && id in s.data
  {
    var t := s.data[id].(state := Ready, assignedWorker := Some(w));
    s.(unarmed := s.unarmed - {id}, armed := (s.armed + {id}) - {id}, data := s.data - {id},
       running := map[id := t], workers := s.workers[w := Worker(Executing(t), WorkerRunning)])
  }

  lemma Dispatch(y: System, w: nat, id: nat, meta: string -> Metadata)
    requires Quiet(y, w, id) && Reachable(y, meta)
    ensures Reachable(y.(sched := Executed(y.sched, w, id), refreshing := y.refreshing[w := Begun]), meta)
  {
    var s := y.sched;
    Reach(y, Sched(Arm(id)), meta);
    var y1 := y.(sched := s.(unarmed := s.unarmed - {id}, armed := s.armed + {id}));
    assert DoStep(y, Sched(Arm(id)), meta) == y1;
    Fires(y1, w, id, meta);
  }

  lemma Fires(y: System, w: nat, id: nat, meta: string -> Metadata)
    requires Shaped(y) && Reachable(y, meta) && id in y.sched.armed && w < |y.sched.workers| && id in y.sched.data
    requires y.sched.running == map[] && forall v | 0 <= v < |y.sched.workers| :: !y.sched.workers[v].at.Parked?
    requires y.sched.workers[w].at.Checking? && y.sched.data[id].id == id && y.sched.data[id].kind.Refresh?
    requires forall k | k in y.sched.data :: y.sched.data[k].state.Pending?
    ensures var s := Executed(y.sched, w, id).(unarmed := y.sched.unarmed, armed := y.sched.armed - {id});
            Reachable(y.(sched := s, refreshing := y.refreshing[w := Begun]), meta)
  {
    var s := y.sched;
    var step := Fire(id, None);
    Reach(y, Sched(step), meta);
    var t := s.data[id].(state := Ready);
    var s1 := s.(armed := s.armed - {id}, data := s.data[id := t]);
    assert !SameReady(s.data, s.data[id]) && !SameReady(s.running, s.data[id]);
    assert Do(s, step) == s1;
    var y1 := y.(sched := s1);
    assert DoStep(y, Sched(step), meta) == y1;
    assert IsFirst(s1.data, id);
    assert Enabled(s1, Take(w, id));
    Reach(y1, Sched(Take(w, id)), meta);
    assert s1.data - {id} == s.data - {id};
    assert s1.running[id := t.(assignedWorker := Some(w))] == map[id := t.(assignedWorker := Some(w))];
  }

  /** From the call of `Refresh` to its return. */
  lemma FromCallToReturn(y: System, w: nat, found: Store, meta: string -> Metadata)
    requires Shaped(y) && Reachable(y, meta) && ExecutesRefresh(y.sched, w) && y.refreshing[w].Begun?
    requires var i := SourceOf(y.sched, w);
             i < |y.cores| && y.cores[i] == y.applied[i] && FoundBy(found, y.sched.sources[i].name, meta)
    ensures var i := SourceOf(y.sched, w);
            Reachable(y.(global := DiffStore(y.global, y.applied[i], found), cores := y.cores[i := found],
                         applied := y.applied[i := found], refreshing := y.refreshing[w := Outside]), meta)
  {
    hide FoundBy, DiffStore;
    var i := SourceOf(y.sched, w);
    Reach(y, ReadOld(w), meta);
    var y1 := y.(refreshing := y.refreshing[w := HasOld(y.cores[i])]);
    assert DoStep(y, ReadOld(w), meta) == y1;
    Reach(y1, PopulateOk(w, found), meta);
    var y2 := y.(cores := y.cores[i := found], refreshing := y.refreshing[w := Installed(y.cores[i])]);
    assert DoStep(y1, PopulateOk(w, found), meta) == y2;
    Reach(y2, Apply(w), meta);
    assert y2.refreshing[w := Outside] == y.refreshing[w := Outside];
  }

  /** Until the entry is no longer listed as running. */
  lemma Returns(y: System, w: nat, meta: string -> Metadata)
    requires Shaped(y) && Reachable(y, meta) && ExecutesRefresh(y.sched, w) && y.refreshing[w].Outside?
    ensures var t := y.sched.workers[w].at.task;
            var s := y.sched.(running := y.sched.running - {t.id},
                              workers := y.sched.workers[w := Worker(Removed(t), WorkerScheduling)]);
            Reachable(y.(sched := s), meta)
  {
    var s, t := y.sched, y.sched.workers[w].at.task;
    Reach(y, Sched(FinishRun(w)), meta);
    var s1 := s.(workers := s.workers[w := Worker(Finishing(t), WorkerScheduling)]);
    assert DoStep(y, Sched(FinishRun(w)), meta) == y.(sched := s1);
    Reach(y.(sched := s1), Sched(RemoveRunning(w)), meta);
    assert s1.workers[w := Worker(Removed(t), WorkerScheduling)]
           == s.workers[w := Worker(Removed(t), WorkerScheduling)];
  }

  /** The system after one whole refresh by a worker, in which the source's backend answers with `found`. */
  ghost function AfterRefresh(y: System, w: nat, id: nat, found: Store): System
    requires Quiet(y, w, id)
  {
    var s := y.sched;
    var i := s.data[id].source.index;
    var t := s.data[id].(state := Ready, assignedWorker := Some(w));
    System(
      s.(unarmed := s.unarmed - {id}, armed := (s.armed + {id}) - {id}, data := s.data - {id},
         workers := s.workers[w := Worker(Removed(t), WorkerScheduling)]),
      y.cores[i := found], y.refreshing, DiffStore(y.global, y.applied[i], found), y.applied[i := found])
  }

  /** A refresh disturbs no other that is still to come. */
  lemma StaysQuiet(y: System, w: nat, id: nat, found: Store, v: nat, other: nat)
    requires Quiet(y, w, id) && Quiet(y, v, other) && w != v && id != other
    ensures Quiet(AfterRefresh(y, w, id, found), v, other)
    ensures AfterRefresh(y, w, id, found).sched.data[other] == y.sched.data[other]
  {
    hide DiffStore;
  }

  lemma AfterRefreshCaches(y: System, w: nat, id: nat, found: Store)
    requires Quiet(y, w, id)
    ensures var i, y' := y.sched.data[id].source.index, AfterRefresh(y, w, id, found);
            && y'.sched.sources == y.sched.sources
            && y'.applied == y.applied[i := found] && y'.global == DiffStore(y.global, y.applied[i], found)
  {
    hide DiffStore;
  }

  lemma ReachRefresh(y: System, w: nat, id: nat, found: Store, meta: string -> Metadata)
    requires Quiet(y, w, id) && Reachable(y, meta)
    requires FoundBy(found, y.sched.sources[y.sched.data[id].source.index].name, meta)
    ensures Reachable(AfterRefresh(y, w, id, found), meta)
  {
    hide FoundBy, DiffStore, Reachable;
    Dispatch(y, w, id, meta);
    var y1 := y.(sched := Executed(y.sched, w, id), refreshing := y.refreshing[w := Begun]);
    FromCallToReturn(y1, w, found, meta);
    var i := y.sched.data[id].source.index;
    var y2 := y1.(global := DiffStore(y.global, y.applied[i], found), cores := y.cores[i := found],
                  applied := y.applied[i := found], refreshing := y1.refreshing[w := Outside]);
    assert Reachable(y2, meta);
    Returns(y2, w, meta);
    var t := y2.sched.workers[w].at.task;
    assert y2.sched.running - {t.id} == map[];
    assert y2.refreshing == y.refreshing;
    assert y2.sched.workers[w := Worker(Removed(t), WorkerScheduling)]
           == y.sched.workers[w := Worker(Removed(t), WorkerScheduling)];
  }

  // ---------- two sources of one name

  function Source0(name: string): SourceRef {
    SourceRef(0, name)
  }

  function Source1(name: string): SourceRef {
    SourceRef(1, name)
  }

  function Pending(id: nat, source: SourceRef, reason: RunReason): Task {
    NewTask(Refresh, source, 0, reason).(id := id)
  }

  /** Before `BackgroundScheduler` has enqueued anything. */
  function Fresh(name: string): System {
    System(State([Source0(name), Source1(name)], 4, map[], map[], 0, {}, {}, [], EnqueueRefresh(0), {}),
           [map[], map[]], [], map[], [map[], map[]])
  }

  /** Both refreshes enqueued, and no authentication, because both backends answered with an infinite lifetime. */
  function BothEnqueued(name: string): System {
    Fresh(name).(sched := State([Source0(name), Source1(name)], 4,
                                map[0 := Pending(0, Source0(name), Scheduled),
                                    1 := Pending(1, Source1(name), Scheduled)],
                                map[], 2, {}, {0, 1}, [], StartWorkers, {0, 1}))
  }

  lemma ReachEnqueued(name: string, meta: string -> Metadata)
    ensures Reachable(BothEnqueued(name), meta)
  {
    var y := Fresh(name);
    ReachInit(y, meta);
    Reach(y, Sched(BootRefresh(0)), meta);
    var y1 := DoStep(y, Sched(BootRefresh(0)), meta);
    Reach(y1, Sched(BootAuth(0, true)), meta);
    var y2 := DoStep(y1, Sched(BootAuth(0, true)), meta);
    Reach(y2, Sched(BootRefresh(0)), meta);
    var y3 := DoStep(y2, Sched(BootRefresh(0)), meta);
    Reach(y3, Sched(BootAuth(0, true)), meta);
    hide Reachable;
    var y4 := DoStep(y3, Sched(BootAuth(0, true)), meta);
    assert y4.sched.data == BothEnqueued(name).sched.data;
    assert y4.sched.unarmed == {0, 1} && y4.sched.retired == {0, 1};
    assert y4 == BothEnqueued(name);
  }

  /** Three workers are up, and someone has asked for a refresh of everything. */
  function WorkersUp(name: string): System {
    var idle := Worker(Checking, WorkerIdle);
    BothEnqueued(name).(
      sched := State([Source0(name), Source1(name)], 4,
                     map[0 := Pending(0, Source0(name), Scheduled), 1 := Pending(1, Source1(name), Scheduled),
                         2 := Pending(2, Source1(name), Adhoc)],
                     map[], 3, {}, {0, 1, 2}, [idle, idle, idle], StartWorkers, {0, 1}),
      refreshing := [Outside, Outside, Outside])
  }

  lemma ReachWorkersUp(name: string, meta: string -> Metadata)
    ensures Reachable(WorkersUp(name), meta)
  {
    ReachEnqueued(name, meta);
    var y, idle := BothEnqueued(name), Worker(Checking, WorkerIdle);
    hide Reachable;
    Reach(y, Sched(StartWorker), meta);
    var y1 := y.(sched := y.sched.(workers := [idle]), refreshing := [Outside]);
    assert DoStep(y, Sched(StartWorker), meta) == y1;
    Reach(y1, Sched(StartWorker), meta);
    var y2 := y.(sched := y.sched.(workers := [idle, idle]), refreshing := [Outside, Outside]);
    assert DoStep(y1, Sched(StartWorker), meta) == y2;
    Reach(y2, Sched(StartWorker), meta);
    var y3 := y.(sched := y.sched.(workers := [idle, idle, idle]), refreshing := [Outside, Outside, Outside]);
    assert DoStep(y2, Sched(StartWorker), meta) == y3;
    Reach(y3, Sched(AdhocRefresh(1, 0)), meta);
    assert DoStep(y3, Sched(AdhocRefresh(1, 0)), meta) == WorkersUp(name);
  }

  // ---------- the diffs, from the empty global cache

  lemma ThreeDiffs(key: string, p: PathObject, m: Metadata)
    ensures var found: Store := map[key := CacheObject(m, [p])];
            && DiffStore(map[], map[], found) == found
            && DiffStore(found, map[], found) == found
            && DiffStore(found, found, map[]) == map[]
  {
    var c := CacheObject(m, [p]);
    var found: Store := map[key := c];
    OnlyKey(map[], map[], found, key);
    OnlyKey(found, map[], found, key);
    OnlyKey(found, found, map[], key);
    SamePathTwice(p);
    assert Without([p], [p]) == [];
    SameLookups(DiffStore(map[], map[], found), found);
    SameLookups(DiffStore(found, map[], found), found);
    SameLookups(DiffStore(found, found, map[]), map[]);
  }

  lemma SamePathTwice(p: PathObject)
    ensures Merged([p], [p]) == [p]
  {
    assert CommonPrefix([p], [p]) == 1;
    assert [p] + [p][1..] == [p];
    assert Sorting.Sort(LessThan, [p]) == [p];
  }

  lemma OnlyKey(g: Store, o: Store, n: Store, key: string)
    requires g.Keys + o.Keys + n.Keys <= {key}
    ensures forall k | k != key :: Lookup(DiffStore(g, o, n), k) == None
  {
  }

  lemma QuietAtStart(name: string)
    ensures var y := WorkersUp(name);
            && Quiet(y, 0, 0) && Quiet(y, 1, 1) && Quiet(y, 2, 2) && y.global == map[] && y.applied == [map[], map[]]
            && y.sched.sources == [Source0(name), Source1(name)]
            && y.sched.data[0].source == Source0(name)
                && y.sched.data[1].source == y.sched.data[2].source == Source1(name)
  {
  }

  /** The first source is refreshed, then the second. */
  lemma ReachTwoRefreshes(name: string, found: Store, found': Store, meta: string -> Metadata) returns (y: System)
    requires FoundBy(found, name, meta) && FoundBy(found', name, meta)
    ensures Reachable(y, meta) && y.sched.sources == [Source0(name), Source1(name)]
    ensures Quiet(y, 2, 2) && y.sched.data[2].source == Source1(name)
    ensures y.applied == [found, found'] && y.global == DiffStore(DiffStore(map[], map[], found), map[], found')
  {
    ReachWorkersUp(name, meta);
    hide Reachable, DiffStore, FoundBy;
    var y0 := WorkersUp(name);
    QuietAtStart(name);
    hide Quiet, AfterRefresh, WorkersUp;
    StaysQuiet(y0, 0, 0, found, 1, 1);
    StaysQuiet(y0, 0, 0, found, 2, 2);
    AfterRefreshCaches(y0, 0, 0, found);
    ReachRefresh(y0, 0, 0, found, meta);
    var y1 := AfterRefresh(y0, 0, 0, found);
    StaysQuiet(y1, 1, 1, found', 2, 2);
    AfterRefreshCaches(y1, 1, 1, found');
    ReachRefresh(y1, 1, 1, found', meta);
    y := AfterRefresh(y1, 1, 1, found');
  }

  /** The first source finds something, the second finds the same, and then nothing any more. */
  lemma ReachThreeRefreshes(name: string, found: Store, meta: string -> Metadata) returns (y: System)
    requires FoundBy(found, name, meta)
    requires DiffStore(map[], map[], found) == found && DiffStore(found, map[], found) == found
    ensures Reachable(y, meta) && y.sched.sources == [Source0(name), Source1(name)]
    ensures y.applied == [found, map[]] && y.global == DiffStore(found, found, map[])
  {
    var nothing: Store := map[];
    assert FoundBy(nothing, name, meta);
    var y2 := ReachTwoRefreshes(name, found, found, meta);
    hide Reachable, DiffStore, FoundBy, Quiet, AfterRefresh;
    AfterRefreshCaches(y2, 2, 2, nothing);
    ReachRefresh(y2, 2, 2, nothing, meta);
    y := AfterRefresh(y2, 2, 2, nothing);
  }

  /** The failing run: both sources find one certificate at one place, and the global cache lists the place once.
      Then a refresh of the second source finds nothing, and the global cache is empty, although the first source
      still lists the place. */
  lemma SharedNameLosesPath(name: string, location: string, key: string, meta: string -> Metadata) returns (y: System)
    ensures Reachable(y, meta) && y.sched.sources == [Source0(name), Source1(name)]
    ensures var p := PathObject(location, name);
            && y.applied == [map[key := CacheObject(meta(key), [p])], map[]]
            && UnionAt(y.applied, key) == {p} && y.global == map[] && !IsSetUnion(y.global, y.applied)
  {
    var p := PathObject(location, name);
    var found: Store := map[key := CacheObject(meta(key), [p])];
    ThreeDiffs(key, p, meta(key));
    y := ReachThreeRefreshes(name, found, meta);
    assert p in PathsAt(y.applied[0], key);
    hide Reachable;
    forall x
      ensures x in UnionAt(y.applied, key) <==> x == p
    {
    }
    assert PathsAt(y.global, key) == {};
  }

  /** A run in which nothing shared is dropped, and yet the global cache is not the union, strictly sorted: the first
      source finds a certificate at two places, then the second finds it at the later one of the two, which the
      global cache lists twice from then on. */
  lemma SharedNameListsTwice(name: string, first: string, later: string, key: string, meta: string -> Metadata)
    returns (y: System)
    requires StringLess(first, later)
    ensures Reachable(y, meta) && y.sched.sources == [Source0(name), Source1(name)]
    ensures var x, p := PathObject(first, name), PathObject(later, name);
            && y.applied == [map[key := CacheObject(meta(key), [x, p])], map[key := CacheObject(meta(key), [p])]]
            && y.global == map[key := CacheObject(meta(key), [x, p, p])]
            && IsSetUnion(y.global, y.applied) && !IsUnion(y.global, y.applied, meta)
  {
    var x, p := PathObject(first, name), PathObject(later, name);
    assert LessThan(x, p);
    hide *;
    var found: Store, found': Store := map[key := CacheObject(meta(key), [x, p])],
        map[key := CacheObject(meta(key), [p])];
    y := ReachTwoRefreshes(name, found, found', meta);
    TwoDiffs(key, x, p, meta(key));
    TwiceIsNoUnion(key, x, p, meta);
  }

  lemma TwiceIsNoUnion(key: string, x: PathObject, p: PathObject, meta: string -> Metadata)
    requires !StrictlyOrdered([x, p, p])
    ensures var m := meta(key);
            var global: Store := map[key := CacheObject(m, [x, p, p])];
            var applied: seq<Store> := [map[key := CacheObject(m, [x, p])], map[key := CacheObject(m, [p])]];
            IsSetUnion(global, applied) && !IsUnion(global, applied, meta)
  {
    hide StrictlyOrdered;
    var m := meta(key);
    var global: Store := map[key := CacheObject(m, [x, p, p])];
    var applied: seq<Store> := [map[key := CacheObject(m, [x, p])], map[key := CacheObject(m, [p])]];
    forall k
      ensures PathsAt(global, k) == UnionAt(applied, k)
    {
      BothAt(applied, k);
    }
    assert !StrictlyOrdered(global[key].paths);
  }

  lemma TwoDiffs(key: string, x: PathObject, p: PathObject, m: Metadata)
    requires LessThan(x, p)
    ensures var found: Store, found': Store := map[key := CacheObject(m, [x, p])], map[key := CacheObject(m, [p])];
            DiffStore(DiffStore(map[], map[], found), map[], found') == map[key := CacheObject(m, [x, p, p])]
    ensures !StrictlyOrdered([x, p, p])
  {
    hide LessThan, StringLess;
    var found: Store, found': Store := map[key := CacheObject(m, [x, p])], map[key := CacheObject(m, [p])];
    FirstDiff(key, CacheObject(m, [x, p]));
    MergedMayDuplicate(x, p);
    hide Merged;
    OnlyKey(found, map[], found', key);
    SameLookups(DiffStore(found, map[], found'), map[key := CacheObject(m, [x, p, p])]);
  }

  lemma FirstDiff(key: string, c: CacheObject)
    ensures DiffStore(map[], map[], map[key := c]) == map[key := c]
  {
    OnlyKey(map[], map[], map[key := c], key);
    SameLookups(DiffStore(map[], map[], map[key := c]), map[key := c]);
  }

  lemma BothAt(applied: seq<Store>, k: string)
    requires |applied| == 2
    ensures UnionAt(applied, k) == PathsAt(applied[0], k) + PathsAt(applied[1], k)
  {
    hide PathsAt;
  }
}
