/** Every run of `RefreshSystem`, however its steps interleave, does to the caches what a sequence of whole refreshes
    does, one after the other. */
module Refreshes {
  import opened Caches
  import opened RefreshSystem

  predicate OfSources(from: seq<nat>, sources: nat) {
    forall t | 0 <= t < |from| :: from[t] < sources
  }

  /** What each source applied last, after refreshes of the sources `from` that found `found`. */
  function LastFound(sources: nat, from: seq<nat>, found: seq<Store>): (r: seq<Store>)
    requires |from| == |found| && OfSources(from, sources)
    ensures |r| == sources
  {
    if from == [] then seq(sources, _ => map[])
    else
      var t := |from| - 1;
      LastFound(sources, from[..t], found[..t])[from[t] := found[t]]
  }

  /** The global cache after one diff for each of them. */
  function Refreshed(sources: nat, from: seq<nat>, found: seq<Store>): Store
    requires |from| == |found| && OfSources(from, sources)
  {
    if from == [] then map[]
    else
      var t := |from| - 1;
      DiffStore(Refreshed(sources, from[..t], found[..t]), LastFound(sources, from[..t], found[..t])[from[t]], found[t])
  }

  lemma OneMore(sources: nat, from: seq<nat>, found: seq<Store>, i: nat, n: Store)
    requires |from| == |found| && OfSources(from, sources) && i < sources
    ensures OfSources(from + [i], sources)
    ensures LastFound(sources, from + [i], found + [n]) == LastFound(sources, from, found)[i := n]
    ensures Refreshed(sources, from + [i], found + [n])
         == DiffStore(Refreshed(sources, from, found), LastFound(sources, from, found)[i], n)
  {
    hide DiffStore;
    var t := |from|;
    assert (from + [i])[..t] == from && (found + [n])[..t] == found;
  }

  /** These refreshes led to the caches of the system. */
  ghost predicate IsHistory(y: System, from: seq<nat>, found: seq<Store>, meta: string -> Metadata) {
    && Shaped(y) && |from| == |found| && OfSources(from, |y.applied|)
    && (forall t | 0 <= t < |from| :: FoundBy(found[t], y.sched.sources[from[t]].name, meta))
    && y.applied == LastFound(|y.applied|, from, found)
    && y.global == Refreshed(|y.applied|, from, found)
  }

  /** The steps `Apply` make up the sequence; all others leave it as it is. */
  lemma StepIsRefresh(y: System, step: SystemStep, from: seq<nat>, found: seq<Store>, meta: string -> Metadata)
    requires SystemInvariant(y, meta) && CanStep(y, step, meta) && IsHistory(y, from, found, meta)
    ensures var y' := DoStep(y, step, meta);
            if step.Apply? then
              var i := SourceOf(y.sched, step.worker);
              IsHistory(y', from + [i], found + [y.cores[i]], meta)
            else IsHistory(y', from, found, meta)
  {
    SystemStepKeeps(y, step, meta);
    hide Scheduler.Do, Scheduler.Enabled, FoundBy, LastFound, Refreshed, SchedulerInvariant.Invariant, DiffStore;
    if step.Sched? {
      StepKeepsSources(y.sched, step.step);
    }
    if step.Apply? {
      var i := SourceOf(y.sched, step.worker);
      AppliesStrict(y, step.worker, meta);
      OneMore(|y.applied|, from, found, i, y.cores[i]);
      assert FoundBy(y.cores[i], y.sched.sources[i].name, meta);
    }
  }

  lemma {:induction false} RunIsRefreshes(trace: seq<System>, i: nat, meta: string -> Metadata)
    returns (from: seq<nat>, found: seq<Store>)
    requires IsSystemRun(trace, meta) && i < |trace|
    ensures IsHistory(trace[i], from, found, meta) && |from| <= i
  {
    if i == 0 {
      from, found := [], [];
      InitHistory(trace[0], meta);
    } else {
      hide *;
      from, found := RunIsRefreshes(trace, i - 1, meta);
      SystemRunKeeps(trace, i - 1, meta);
      var step := StepOf(trace, i, meta);
      StepIsRefresh(trace[i-1], step, from, found, meta);
      if step.Apply? {
        var j := AppliesOf(trace[i-1], step.worker, meta);
        from, found := from + [j], found + [trace[i-1].cores[j]];
      }
    }
  }

  lemma InitHistory(y: System, meta: string -> Metadata)
    requires InitSystem(y)
    ensures IsHistory(y, [], [], meta)
  {
    assert y.applied == seq(|y.applied|, _ => map[]);
  }

  lemma StepOf(trace: seq<System>, i: nat, meta: string -> Metadata) returns (step: SystemStep)
    requires IsSystemRun(trace, meta) && 0 < i < |trace|
    ensures Shaped(trace[i-1]) && CanStep(trace[i-1], step, meta) && trace[i] == DoStep(trace[i-1], step, meta)
  {
    hide CanStep, DoStep;
    assert NextSystem(trace[i-1], trace[i], meta);
    step :| CanStep(trace[i-1], step, meta) && trace[i] == DoStep(trace[i-1], step, meta);
  }

  lemma AppliesOf(y: System, w: nat, meta: string -> Metadata) returns (i: nat)
    requires Shaped(y) && CanStep(y, Apply(w), meta)
    ensures ExecutesRefresh(y.sched, w) && i == SourceOf(y.sched, w) && i < |y.cores|
  {
    i := SourceOf(y.sched, w);
  }

  /** If names differ, what different sources found has no path in common. */
  lemma NamesApart(y: System, from: seq<nat>, found: seq<Store>, meta: string -> Metadata, t: nat, u: nat, k: string)
    requires IsHistory(y, from, found, meta) && NamesDistinct(y) && t < |from| && u < |from| && from[t] != from[u]
    ensures PathsAt(found[t], k) !! PathsAt(found[u], k)
  {
    hide LastFound, Refreshed, FoundBy;
    var name, name' := y.sched.sources[from[t]].name, y.sched.sources[from[u]].name;
    forall p | p in PathsAt(found[t], k) && p in PathsAt(found[u], k)
      ensures false
    {
      FoundUnder(found[t], name, meta, k, p);
      FoundUnder(found[u], name', meta, k, p);
    }
  }
}
