/** `populateUsing` of `server/core.go`: a pool of workers takes paths off one queue and merges what it finds
    into one cache. What the backend answers for each path is fixed in advance and arbitrary; everything else
    (which worker takes which path, when it is answered, in which order the certificates of a secret are
    visited, how merges interleave) is left open. */
module Populate {
  import opened Paths
  import opened Caches
  import RefreshSystem

  /** One certificate found under a path. */
  datatype Find = Find(key: string, meta: Metadata, location: string)
  datatype Outcome = Failed | Found(finds: seq<Find>)

  datatype Activity =
    | Waiting
    | Fetching(path: nat)
    | Merging(path: nat, left: set<nat>)  // the finds still to be merged
    | Stopped

  datatype Fetcher = Fetcher(at: Activity, successes: nat, certs: nat)

  datatype Pool = Pool(
    name: string,
    outcomes: seq<Outcome>,
    next: nat,             // the head of the queue
    fetchers: seq<Fetcher>,
    cache: Store,
    errors: seq<nat>,      // the failed paths, in the order the errors were noted
    successCount: nat,
    certCount: nat,
    finished: set<nat>,    // history: paths a worker is through with
    merged: set<(nat, nat)>  // history: which find of which path was merged
  )

  datatype PoolStep =
    | TakePath(worker: nat)
    | Answer(worker: nat)
    | MergeOne(worker: nat, j: nat)
    | FinishPath(worker: nat)
    | Stop(worker: nat)

  function NumFetchers(cpus: int, paths: nat): nat {
    var n := if cpus - 1 < 1 then 1 else cpus - 1;
    if paths < n then paths else n
  }

  predicate InitPool(p: Pool, cpus: int) {
    && p.next == 0 && p.cache == map[] && p.errors == [] && p.successCount == 0 && p.certCount == 0
    && p.finished == {} && p.merged == {}
    && p.fetchers == seq(NumFetchers(cpus, |p.outcomes|), _ => Fetcher(Waiting, 0, 0))
  }

  predicate CanPool(p: Pool, step: PoolStep) {
    step.worker < |p.fetchers| &&
    var at := p.fetchers[step.worker].at;
    match step
    case TakePath(_) => at.Waiting? && p.next < |p.outcomes|
    case Answer(_) => at.Fetching? && at.path < |p.outcomes|
    case MergeOne(_, j) =>
      at.Merging? && j in at.left && at.path < |p.outcomes| && p.outcomes[at.path].Found?
          && j < |p.outcomes[at.path].finds|
    case FinishPath(_) => at.Merging? && at.left == {}
    case Stop(_) => at.Waiting? && p.next == |p.outcomes|
  }

  function Indices(n: nat): (s: set<nat>)
    ensures forall j: nat :: j in s <==> j < n
  {
    if n == 0 then {} else Indices(n - 1) + {n - 1}
  }

  function ObjectOf(name: string, f: Find): CacheObject {
    CacheObject(f.meta, [PathObject(f.location, name)])
  }

  function Put(p: Pool, w: nat, f: Fetcher): Pool
    requires w < |p.fetchers|
  {
    p.(fetchers := p.fetchers[w := f])
  }

  function DoPool(p: Pool, step: PoolStep): Pool
    requires CanPool(p, step)
  {
    var w := step.worker;
    var f := p.fetchers[w];
    match step
    case TakePath(_) => Put(p.(next := p.next + 1), w, f.(at := Fetching(p.next)))
    case Answer(_) =>
      var i := f.at.path;
      if p.outcomes[i].Failed? then
        Put(p.(errors := p.errors + [i], finished := p.finished + {i}), w, f.(at := Waiting))
      else
        Put(p, w, f.(at := Merging(i, Indices(|p.outcomes[i].finds|))))
    case MergeOne(_, j) =>
      var i := f.at.path;
      var found := p.outcomes[i].finds[j];
      Put(p.(cache := p.cache[found.key := Added(Lookup(p.cache, found.key), ObjectOf(p.name, found))],
             merged := p.merged + {(i, j)}),
          w, f.(at := Merging(i, f.at.left - {j}), certs := f.certs + 1))
    case FinishPath(_) =>
      Put(p.(finished := p.finished + {f.at.path}), w, f.(at := Waiting, successes := f.successes + 1))
    case Stop(_) =>
      Put(p.(successCount := p.successCount + f.successes, certCount := p.certCount + f.certs), w,
          Fetcher(Stopped, 0, 0))
  }

  ghost predicate NextPool(p: Pool, p': Pool) {
    exists step :: CanPool(p, step) && p' == DoPool(p, step)
  }

  ghost predicate IsPoolRun(trace: seq<Pool>, cpus: int) {
    && trace != [] && InitPool(trace[0], cpus)
    && forall i | 0 < i < |trace| :: NextPool(trace[i-1], trace[i])
  }

  predicate AllStopped(p: Pool) {
    forall w | 0 <= w < |p.fetchers| :: p.fetchers[w].at.Stopped?
  }

  // ---------- the invariant

  ghost predicate IsFind(p: Pool, i: nat, j: nat) {
    i < |p.outcomes| && p.outcomes[i].Found? && j < |p.outcomes[i].finds|
  }

  function PathOfFind(p: Pool, i: nat, j: nat): PathObject
    requires IsFind(p, i, j)
  {
    PathObject(p.outcomes[i].finds[j].location, p.name)
  }

  /** What a set of finds contributes to a key. */
  ghost function Contributed(p: Pool, from: set<(nat, nat)>, k: string): set<PathObject> {
    set m | m in from && IsFind(p, m.0, m.1) && p.outcomes[m.0].finds[m.1].key == k :: PathOfFind(p, m.0, m.1)
  }

  ghost predicate Nonempty(c: Store) {
    forall k | k in c :: c[k].paths != []
  }

  ghost predicate CacheOk(p: Pool) {
    && Nonempty(p.cache) && OrderedStore(p.cache)
    && (forall m | m in p.merged :: IsFind(p, m.0, m.1))
    && (forall k :: PathsAt(p.cache, k) == Contributed(p, p.merged, k))
  }

  ghost predicate OnPath(p: Pool, w: nat, i: nat) {
    w < |p.fetchers| && (p.fetchers[w].at.Fetching? || p.fetchers[w].at.Merging?) && p.fetchers[w].at.path == i
  }

  ghost predicate FetcherOk(p: Pool, w: nat)
    requires w < |p.fetchers|
  {
    var at := p.fetchers[w].at;
    && (at.Fetching? ==> at.path < p.next && at.path !in p.finished && forall m | m in p.merged :: m.0 != at.path)
    && (at.Merging? ==>
          && at.path < p.next && at.path !in p.finished && at.path < |p.outcomes| && p.outcomes[at.path].Found?
          && forall j: nat | j < |p.outcomes[at.path].finds| :: j in at.left <==> (at.path, j) !in p.merged)
    && (at.Stopped? ==> p.next == |p.outcomes|)
  }

  ghost predicate ProgressOk(p: Pool) {
    && p.next <= |p.outcomes|
    && (forall w | 0 <= w < |p.fetchers| :: FetcherOk(p, w))
    && (forall w: nat, v: nat, i: nat | OnPath(p, w, i) && OnPath(p, v, i) :: w == v)
    && (forall m | m in p.merged :: m.0 < p.next)
    && (forall i | i in p.finished :: i < p.next && forall j: nat | IsFind(p, i, j) :: (i, j) in p.merged)
    && (forall i | 0 <= i < p.next :: i in p.finished || exists w: nat :: OnPath(p, w, i))
  }

  function SumSuccesses(fs: seq<Fetcher>): nat {
    if fs == [] then 0 else fs[0].successes + SumSuccesses(fs[1..])
  }

  function SumCerts(fs: seq<Fetcher>): nat {
    if fs == [] then 0 else fs[0].certs + SumCerts(fs[1..])
  }

  ghost predicate CountsOk(p: Pool) {
    && p.successCount + SumSuccesses(p.fetchers) + |p.errors| == |p.finished|
    && p.certCount + SumCerts(p.fetchers) == |p.merged|
    && (forall i :: i in p.errors <==> i in p.finished && i < |p.outcomes| && p.outcomes[i].Failed?)
  }

  ghost predicate PoolInvariant(p: Pool) {
    CacheOk(p) && ProgressOk(p) && CountsOk(p)
  }

  // ---------- merging one find

  lemma MergeOneCache(p: Pool, w: nat, j: nat)
    requires CacheOk(p) && CanPool(p, MergeOne(w, j))
    ensures CacheOk(DoPool(p, MergeOne(w, j)))
  {
    var i := p.fetchers[w].at.path;
    var found := p.outcomes[i].finds[j];
    var p' := DoPool(p, MergeOne(w, j));
    var obj := ObjectOf(p.name, found);
    MergeIntoStore(p.cache, found.key, obj);
    forall k
      ensures Contributed(p', p'.merged, k) == Contributed(p, p.merged, k)
              + if k == found.key then {PathOfFind(p, i, j)} else {}
    {
      ContributedMore(p, p', i, j, k);
    }
    hide Contributed, PathSet, Added;
    assert PathSet(obj.paths) == {PathOfFind(p, i, j)} by { SinglePath(PathOfFind(p, i, j)); }
  }

  lemma SinglePath(x: PathObject)
    ensures PathSet([x]) == {x}
  {
  }

  lemma ContributedMore(p: Pool, p': Pool, i: nat, j: nat, k: string)
    requires IsFind(p, i, j) && p'.outcomes == p.outcomes && p'.name == p.name && p'.merged == p.merged + {(i, j)}
    ensures Contributed(p', p'.merged, k)
         == Contributed(p, p.merged, k) + if p.outcomes[i].finds[j].key == k then {PathOfFind(p, i, j)} else {}
  {
    forall x | x in Contributed(p, p.merged, k)
      ensures x in Contributed(p', p'.merged, k)
    {
      var m :| m in p.merged && IsFind(p, m.0, m.1) && p.outcomes[m.0].finds[m.1].key == k
          && x == PathOfFind(p, m.0, m.1);
      assert m in p'.merged && IsFind(p', m.0, m.1) && x == PathOfFind(p', m.0, m.1);
    }
    assert (i, j) in p'.merged && IsFind(p', i, j);
  }

  lemma MergeIntoStore(c: Store, key: string, obj: CacheObject)
    requires Nonempty(c) && OrderedStore(c) && Ordered(obj.paths) && obj.paths != []
    ensures var c' := c[key := Added(Lookup(c, key), obj)];
            && Nonempty(c') && OrderedStore(c')
            && forall k :: PathsAt(c', k) == PathsAt(c, k) + if k == key then PathSet(obj.paths) else {}
  {
    if key in c {
      MergedHasUnion(c[key].paths, obj.paths);
      MergedNonempty(c[key].paths, obj.paths);
      SortOrdered(c[key].paths + obj.paths[CommonPrefix(c[key].paths, obj.paths)..]);
    }
    hide Merged, Ordered, PathSet;
  }

  // ---------- progress

  ghost predicate SameOutcomes(p: Pool, p': Pool) {
    p'.outcomes == p.outcomes && p'.name == p.name && |p'.fetchers| == |p.fetchers|
  }

  lemma TakePathProgress(p: Pool, w: nat)
    requires ProgressOk(p) && CanPool(p, TakePath(w))
    ensures ProgressOk(DoPool(p, TakePath(w)))
  {
    var p' := DoPool(p, TakePath(w));
    forall v | 0 <= v < |p'.fetchers|
      ensures FetcherOk(p', v)
    {
      assert FetcherOk(p, v);
    }
    forall v: nat, i: nat | v != w
      ensures OnPath(p', v, i) <==> OnPath(p, v, i)
      ensures OnPath(p, v, i) ==> i < p.next
    {
      assert v < |p.fetchers| ==> FetcherOk(p, v);
    }
    assert OnPath(p', w, p.next);
    forall i | 0 <= i < p'.next
      ensures i in p'.finished || exists v: nat :: OnPath(p', v, i)
    {
      KeepsOnPath(p, p', w, i);
    }
    KeepsFinds(p, p');
  }

  /** A waiting worker is on no path, so whoever is on one stays there. */
  lemma KeepsOnPath(p: Pool, p': Pool, w: nat, i: nat)
    requires w < |p.fetchers| && p.fetchers[w].at.Waiting? && |p'.fetchers| == |p.fetchers|
    requires forall v | 0 <= v < |p.fetchers| && v != w :: p'.fetchers[v] == p.fetchers[v]
    ensures (exists v: nat :: OnPath(p, v, i)) ==> exists v: nat :: OnPath(p', v, i)
  {
    if v: nat :| OnPath(p, v, i) {
      assert OnPath(p', v, i);
    }
  }

  lemma KeepsFinds(p: Pool, p': Pool)
    requires ProgressOk(p) && SameOutcomes(p, p')
    ensures forall i: nat, j: nat :: IsFind(p', i, j) <==> IsFind(p, i, j)
  {
  }

  lemma AnswerProgress(p: Pool, w: nat)
    requires ProgressOk(p) && CanPool(p, Answer(w))
    ensures ProgressOk(DoPool(p, Answer(w)))
  {
    var p' := DoPool(p, Answer(w));
    var n := p.fetchers[w].at.path;
    assert OnPath(p, w, n) && FetcherOk(p, w);
    forall v | 0 <= v < |p'.fetchers|
      ensures FetcherOk(p', v)
    {
      assert FetcherOk(p, v);
      assert OnPath(p, v, n) ==> v == w;
    }
    forall v: nat, i: nat
      ensures OnPath(p', v, i) ==> OnPath(p, v, i)
    {
    }
    forall i | 0 <= i < p'.next
      ensures i in p'.finished || exists v: nat :: OnPath(p', v, i)
    {
      if i !in p'.finished {
        var v: nat :| OnPath(p, v, i);
        assert OnPath(p', v, i);
      }
    }
  }

  lemma MergeOneProgress(p: Pool, w: nat, j: nat)
    requires ProgressOk(p) && CanPool(p, MergeOne(w, j))
    ensures ProgressOk(DoPool(p, MergeOne(w, j)))
  {
    var p' := DoPool(p, MergeOne(w, j));
    var n := p.fetchers[w].at.path;
    assert OnPath(p, w, n) && FetcherOk(p, w);
    forall v | 0 <= v < |p'.fetchers|
      ensures FetcherOk(p', v)
    {
      assert FetcherOk(p, v);
      assert OnPath(p, v, n) ==> v == w;
    }
    forall v: nat, i: nat
      ensures OnPath(p', v, i) <==> OnPath(p, v, i)
    {
    }
  }

  lemma FinishPathProgress(p: Pool, w: nat)
    requires ProgressOk(p) && CanPool(p, FinishPath(w))
    ensures ProgressOk(DoPool(p, FinishPath(w)))
  {
    var p' := DoPool(p, FinishPath(w));
    var n := p.fetchers[w].at.path;
    assert OnPath(p, w, n) && FetcherOk(p, w);
    forall v | 0 <= v < |p'.fetchers|
      ensures FetcherOk(p', v)
    {
      assert FetcherOk(p, v);
      assert OnPath(p, v, n) ==> v == w;
    }
    forall j: nat | IsFind(p, n, j)
      ensures (n, j) in p.merged
    {
      assert j !in p.fetchers[w].at.left;
    }
    forall v: nat, i: nat
      ensures OnPath(p', v, i) ==> OnPath(p, v, i)
    {
    }
    forall i | 0 <= i < p'.next
      ensures i in p'.finished || exists v: nat :: OnPath(p', v, i)
    {
      if i !in p'.finished {
        var v: nat :| OnPath(p, v, i);
        assert OnPath(p', v, i);
      }
    }
  }

  lemma StopProgress(p: Pool, w: nat)
    requires ProgressOk(p) && CanPool(p, Stop(w))
    ensures ProgressOk(DoPool(p, Stop(w)))
  {
    var p' := DoPool(p, Stop(w));
    forall v | 0 <= v < |p'.fetchers|
      ensures FetcherOk(p', v)
    {
      assert FetcherOk(p, v);
    }
    forall v: nat, i: nat
      ensures OnPath(p', v, i) <==> OnPath(p, v, i)
    {
    }
  }

  // ---------- counting

  lemma {:induction false} SumUpdate(fs: seq<Fetcher>, w: nat, f: Fetcher)
    requires w < |fs|
    ensures SumSuccesses(fs[w := f]) == SumSuccesses(fs) - fs[w].successes + f.successes
    ensures SumCerts(fs[w := f]) == SumCerts(fs) - fs[w].certs + f.certs
  {
    if w == 0 {
      assert fs[w := f][1..] == fs[1..];
    } else {
      assert fs[w := f][1..] == fs[1..][w - 1 := f];
      SumUpdate(fs[1..], w - 1, f);
    }
  }

  lemma CountsKeep(p: Pool, step: PoolStep)
    requires ProgressOk(p) && CountsOk(p) && CanPool(p, step)
    ensures CountsOk(DoPool(p, step))
  {
    var w := step.worker;
    var p' := DoPool(p, step);
    SumUpdate(p.fetchers, w, p'.fetchers[w]);
    assert FetcherOk(p, w);
    hide SumSuccesses, SumCerts, Added, Lookup;
    match step
    case TakePath(_) =>
    case Answer(_) =>
      var i := p.fetchers[w].at.path;
      assert i !in p.finished;
    case MergeOne(_, j) =>
      assert (p.fetchers[w].at.path, j) !in p.merged;
    case FinishPath(_) =>
      assert p.fetchers[w].at.path !in p.finished;
    case Stop(_) =>
  }

  lemma {:induction false} SumZero(fs: seq<Fetcher>)
    requires forall f | f in fs :: f.successes == 0 && f.certs == 0
    ensures SumSuccesses(fs) == 0 && SumCerts(fs) == 0
  {
    if fs != [] {
      assert fs[0] in fs;
      SumZero(fs[1..]);
    }
  }

  // ---------- every run

  lemma InitPoolKeeps(p: Pool, cpus: int)
    requires InitPool(p, cpus)
    ensures PoolInvariant(p)
  {
    SumZero(p.fetchers);
  }

  lemma CacheUntouched(p: Pool, p': Pool)
    requires CacheOk(p) && p'.cache == p.cache && p'.merged == p.merged && p'.outcomes == p.outcomes
             && p'.name == p.name
    ensures CacheOk(p')
  {
    forall k
      ensures Contributed(p', p'.merged, k) == Contributed(p, p.merged, k)
    {
      forall x
        ensures x in Contributed(p', p'.merged, k) <==> x in Contributed(p, p.merged, k)
      {
      }
    }
  }

  lemma PoolStepKeeps(p: Pool, step: PoolStep)
    requires PoolInvariant(p) && CanPool(p, step)
    ensures PoolInvariant(DoPool(p, step))
  {
    CountsKeep(p, step);
    if step.MergeOne? {
      MergeOneCache(p, step.worker, step.j);
    } else {
      CacheUntouched(p, DoPool(p, step));
    }
    hide CacheOk, CountsOk, ProgressOk, DoPool;
    match step
    case TakePath(w) => TakePathProgress(p, w);
    case Answer(w) => AnswerProgress(p, w);
    case MergeOne(w, j) => MergeOneProgress(p, w, j);
    case FinishPath(w) => FinishPathProgress(p, w);
    case Stop(w) => StopProgress(p, w);
  }

  lemma {:induction false} PoolRunKeeps(trace: seq<Pool>, cpus: int, i: nat)
    requires IsPoolRun(trace, cpus) && i < |trace|
    ensures PoolInvariant(trace[i])
    ensures trace[i].outcomes == trace[0].outcomes && trace[i].name == trace[0].name
    ensures |trace[i].fetchers| == |trace[0].fetchers|
    ensures forall w | 0 <= w < |trace[i].fetchers| && trace[i].fetchers[w].at.Stopped? ::
              trace[i].fetchers[w].successes == 0 && trace[i].fetchers[w].certs == 0
  {
    hide PoolInvariant, CanPool;
    if i == 0 {
      InitPoolKeeps(trace[0], cpus);
    } else {
      PoolRunKeeps(trace, cpus, i - 1);
      assert NextPool(trace[i-1], trace[i]);
      var step :| CanPool(trace[i-1], step) && trace[i] == DoPool(trace[i-1], step);
      PoolStepKeeps(trace[i-1], step);
      StoppedStaysEmpty(trace[i-1], step);
    }
  }

  lemma StoppedStaysEmpty(p: Pool, step: PoolStep)
    requires CanPool(p, step)
    requires forall w | 0 <= w < |p.fetchers| && p.fetchers[w].at.Stopped? ::
             p.fetchers[w].successes == 0 && p.fetchers[w].certs == 0
    ensures var p' := DoPool(p, step);
            && |p'.fetchers| == |p.fetchers| && p'.outcomes == p.outcomes && p'.name == p.name
            && forall w | 0 <= w < |p'.fetchers| && p'.fetchers[w].at.Stopped? ::
                 p'.fetchers[w].successes == 0 && p'.fetchers[w].certs == 0
  {
  }

  /** Every find of every path that was answered. */
  ghost function AllFinds(p: Pool): set<(nat, nat)> {
    set i, j | 0 <= i < |p.outcomes| && 0 <= j < FindCount(p, i) :: (i, j)
  }

  function FindCount(p: Pool, i: nat): nat
    requires i < |p.outcomes|
  {
    if p.outcomes[i].Found? then |p.outcomes[i].finds| else 0
  }

  lemma StoppedMeansAllMerged(p: Pool)
    requires PoolInvariant(p) && AllStopped(p) && (p.outcomes != [] ==> p.fetchers != [])
    ensures p.merged == AllFinds(p)
    ensures forall i :: i in p.finished <==> 0 <= i < |p.outcomes|
  {
    if p.outcomes != [] {
      assert FetcherOk(p, 0);
    }
    forall i | 0 <= i < |p.outcomes|
      ensures i in p.finished
    {
      assert forall w: nat :: !OnPath(p, w, i);
    }
    forall m
      ensures m in p.merged <==> m in AllFinds(p)
    {
      assert m == (m.0, m.1);
      if m in AllFinds(p) {
        assert IsFind(p, m.0, m.1) && m.0 in p.finished;
      }
      if m in p.merged {
        assert IsFind(p, m.0, m.1) && m.1 < FindCount(p, m.0);
      }
    }
  }

  lemma {:induction false} RangeSize(s: set<nat>, n: nat)
    requires forall i: nat :: i in s <==> i < n
    ensures |s| == n
  {
    if n == 0 {
      assert s == {};
    } else {
      RangeSize(s - {n - 1}, n - 1);
    }
  }

  /** The answer for path `n` has at position `j` a certificate of this key at this place, which carries the name. */
  ghost predicate FoundAt(outcomes: seq<Outcome>, n: int, j: int, k: string, x: PathObject, name: string) {
    && 0 <= n < |outcomes| && outcomes[n].Found? && 0 <= j < |outcomes[n].finds| && outcomes[n].finds[j].key == k
    && x == PathObject(outcomes[n].finds[j].location, name)
  }

  lemma ContributedIff(p: Pool, k: string, x: PathObject)
    ensures x in Contributed(p, AllFinds(p), k) <==> exists n, j :: FoundAt(p.outcomes, n, j, k, x, p.name)
  {
    if x in Contributed(p, AllFinds(p), k) {
      var m :| m in AllFinds(p) && IsFind(p, m.0, m.1) && p.outcomes[m.0].finds[m.1].key == k
          && x == PathOfFind(p, m.0, m.1);
      assert FoundAt(p.outcomes, m.0, m.1, k, x, p.name);
    }
    if exists n, j :: FoundAt(p.outcomes, n, j, k, x, p.name) {
      var n, j :| FoundAt(p.outcomes, n, j, k, x, p.name);
      assert IsFind(p, n, j) && (n, j) in AllFinds(p);
    }
  }

  /** Populate is order-independent and conserving: for any number of workers and any interleaving, when all
      workers have stopped, each key lists exactly the paths found for it, no other key is present, every find
      was counted, and successes and errors add up to the number of paths. There is a worker less than processors,
      but at least one, and no more than paths. */
  lemma PopulateIsDetermined(trace: seq<Pool>, cpus: int, i: nat)
    requires IsPoolRun(trace, cpus) && i < |trace| && AllStopped(trace[i])
    ensures var p := trace[i];
            && (forall k :: PathsAt(p.cache, k) == Contributed(trace[0], AllFinds(trace[0]), k))
            && (forall k :: k in p.cache <==> Contributed(trace[0], AllFinds(trace[0]), k) != {})
            && (forall k, x :: x in PathsAt(p.cache, k) <==> exists n, j :: FoundAt(p.outcomes, n, j, k, x, p.name))
            && (forall n :: n in p.errors <==> 0 <= n < |p.outcomes| && p.outcomes[n] == Failed)
            && OrderedStore(p.cache)
            && p.successCount + |p.errors| == |p.outcomes|
            && p.certCount == |AllFinds(trace[0])|
            && |p.fetchers| == (if p.outcomes == [] then 0 else if cpus <= 2 then 1
                                else if |p.outcomes| < cpus - 1 then |p.outcomes| else cpus - 1)
            && (p.errors == [] <==> forall n | 0 <= n < |p.outcomes| :: p.outcomes[n].Found?)
  {
    PoolRunKeeps(trace, cpus, i);
    var p := trace[i];
    StoppedMeansAllMerged(p);
    StoppedCounts(p);
    SameFinds(trace[0], p);
    FailuresNoted(p);
    forall k
      ensures k in p.cache <==> PathsAt(p.cache, k) != {}
    {
      if k in p.cache {
        assert p.cache[k].paths[0] in PathsAt(p.cache, k);
      }
    }
    hide ProgressOk, Contributed, PathsAt, FoundAt, AllFinds, PoolInvariant;
    forall k, x
      ensures x in PathsAt(p.cache, k) <==> exists n, j :: FoundAt(p.outcomes, n, j, k, x, p.name)
    {
      ContributedIff(p, k, x);
    }
  }

  lemma FailuresNoted(p: Pool)
    requires PoolInvariant(p) && forall n :: n in p.finished <==> 0 <= n < |p.outcomes|
    ensures forall n :: n in p.errors <==> 0 <= n < |p.outcomes| && p.outcomes[n] == Failed
  {
    forall n | n in p.errors
      ensures 0 <= n < |p.outcomes| && p.outcomes[n] == Failed
    {
      var e :| 0 <= e < |p.errors| && p.errors[e] == n;
      FailureNoted(p, e);
    }
  }

  lemma SameFinds(p: Pool, p': Pool)
    requires p'.outcomes == p.outcomes && p'.name == p.name
    ensures AllFinds(p') == AllFinds(p)
    ensures forall k :: Contributed(p', AllFinds(p'), k) == Contributed(p, AllFinds(p), k)
  {
    forall m
      ensures m in AllFinds(p') <==> m in AllFinds(p)
    {
    }
    forall k
      ensures Contributed(p', AllFinds(p'), k) == Contributed(p, AllFinds(p), k)
    {
      forall x
        ensures x in Contributed(p', AllFinds(p'), k) <==> x in Contributed(p, AllFinds(p), k)
      {
      }
    }
  }

  lemma StoppedCounts(p: Pool)
    requires PoolInvariant(p) && AllStopped(p)
    requires forall w | 0 <= w < |p.fetchers| && p.fetchers[w].at.Stopped? ::
             p.fetchers[w].successes == 0 && p.fetchers[w].certs == 0
    requires forall i :: i in p.finished <==> 0 <= i < |p.outcomes|
    ensures p.successCount + |p.errors| == |p.outcomes| && p.certCount == |p.merged|
    ensures p.errors == [] <==> forall n | 0 <= n < |p.outcomes| :: p.outcomes[n].Found?
  {
    SumZero(p.fetchers);
    RangeSize(p.finished, |p.outcomes|);
    if p.errors != [] {
      FailureNoted(p, 0);
    }
    forall n | 0 <= n < |p.outcomes|
      ensures n in p.errors <==> p.outcomes[n].Failed?
    {
    }
  }

  lemma FailureNoted(p: Pool, e: nat)
    requires PoolInvariant(p) && e < |p.errors|
    ensures p.errors[e] < |p.outcomes| && p.outcomes[p.errors[e]].Failed?
  {
    assert p.errors[e] in p.errors;
  }

  // ---------- what a populate hands to the refresh

  /** No certificate is found twice at one place. */
  ghost predicate FoundOnce(p: Pool) {
    forall i: nat, j: nat, i': nat, j': nat | IsFind(p, i, j) && IsFind(p, i', j')
      && p.outcomes[i].finds[j].key == p.outcomes[i'].finds[j'].key
      && p.outcomes[i].finds[j].location == p.outcomes[i'].finds[j'].location :: i == i' && j == j'
  }

  ghost predicate MetaByKey(p: Pool, meta: string -> Metadata) {
    forall i: nat, j: nat | IsFind(p, i, j) :: p.outcomes[i].finds[j].meta == meta(p.outcomes[i].finds[j].key)
  }

  ghost predicate StrictAndTagged(p: Pool, meta: string -> Metadata) {
    StrictStore(p.cache) && forall k | k in p.cache :: p.cache[k].meta == meta(k)
  }

  lemma MergeOneStrict(p: Pool, w: nat, j: nat, meta: string -> Metadata)
    requires PoolInvariant(p) && FoundOnce(p) && MetaByKey(p, meta) && CanPool(p, MergeOne(w, j))
    requires StrictAndTagged(p, meta)
    ensures StrictAndTagged(DoPool(p, MergeOne(w, j)), meta)
  {
    var i := p.fetchers[w].at.path;
    var key, x := p.outcomes[i].finds[j].key, PathOfFind(p, i, j);
    assert FetcherOk(p, w) && IsFind(p, i, j);
    NotYetListed(p, i, j);
    PutStrict(p.cache, key, meta(key), x);
    hide StrictlyOrdered, Merged, PathsAt, PoolInvariant, FoundOnce, FetcherOk, Added;
  }

  lemma PutStrict(c: Store, key: string, m: Metadata, x: PathObject)
    requires StrictStore(c) && x !in PathsAt(c, key)
    ensures var c' := c[key := Added(Lookup(c, key), CacheObject(m, [x]))];
            && StrictStore(c')
            && c'[key].meta == if key in c then c[key].meta else m
  {
    if key in c {
      InsertStrict(c[key].paths, x);
    }
    hide StrictlyOrdered, Merged;
  }

  lemma NotYetListed(p: Pool, i: nat, j: nat)
    requires CacheOk(p) && FoundOnce(p) && IsFind(p, i, j) && (i, j) !in p.merged
    ensures PathOfFind(p, i, j) !in PathsAt(p.cache, p.outcomes[i].finds[j].key)
  {
    var key := p.outcomes[i].finds[j].key;
    forall m | m in p.merged && p.outcomes[m.0].finds[m.1].key == key
      ensures PathOfFind(p, m.0, m.1) != PathOfFind(p, i, j)
    {
      assert IsFind(p, m.0, m.1);
    }
  }

  lemma InsertStrict(e: seq<PathObject>, x: PathObject)
    requires StrictlyOrdered(e) && e != [] && x !in PathSet(e)
    ensures StrictlyOrdered(Merged(e, [x])) && Merged(e, [x]) != []
  {
    SinglePath(x);
    AddedFacts(e, [x]);
  }

  lemma {:induction false} StrictRun(trace: seq<Pool>, cpus: int, i: nat, meta: string -> Metadata)
    requires IsPoolRun(trace, cpus) && i < |trace| && FoundOnce(trace[0]) && MetaByKey(trace[0], meta)
    ensures StrictAndTagged(trace[i], meta)
  {
    if i > 0 {
      StrictRun(trace, cpus, i - 1, meta);
      PoolRunKeeps(trace, cpus, i - 1);
      FindsCarryOver(trace[0], trace[i-1], meta);
      hide PoolInvariant, CanPool, StrictAndTagged, FoundOnce, MetaByKey;
      assert NextPool(trace[i-1], trace[i]);
      var step :| CanPool(trace[i-1], step) && trace[i] == DoPool(trace[i-1], step);
      if step.MergeOne? {
        MergeOneStrict(trace[i-1], step.worker, step.j, meta);
      } else {
        SameCacheStrict(trace[i-1], trace[i], meta);
      }
    }
  }

  lemma SameCacheStrict(p: Pool, p': Pool, meta: string -> Metadata)
    requires StrictAndTagged(p, meta) && p'.cache == p.cache
    ensures StrictAndTagged(p', meta)
  {
  }

  lemma FindsCarryOver(p: Pool, p': Pool, meta: string -> Metadata)
    requires p'.outcomes == p.outcomes && FoundOnce(p) && MetaByKey(p, meta)
    ensures FoundOnce(p') && MetaByKey(p', meta)
  {
    forall i: nat, j: nat
      ensures IsFind(p', i, j) <==> IsFind(p, i, j)
    {
    }
  }

  /** A populate that ends without error yields a cache of the kind the refresh relies on. */
  lemma PopulateIsFoundBy(trace: seq<Pool>, cpus: int, i: nat, meta: string -> Metadata)
    requires IsPoolRun(trace, cpus) && i < |trace| && AllStopped(trace[i])
    requires FoundOnce(trace[0]) && MetaByKey(trace[0], meta)
    ensures RefreshSystem.FoundBy(trace[i].cache, trace[0].name, meta)
  {
    StrictRun(trace, cpus, i, meta);
    PopulateIsDetermined(trace, cpus, i);
    var c := trace[i].cache;
    forall k, x | k in c && x in c[k].paths
      ensures x.source == trace[0].name
    {
      assert x in PathsAt(c, k);
      assert x in Contributed(trace[0], AllFinds(trace[0]), k);
    }
  }
}
