/** The queue of `server/scheduler.go` as the object it is: two slices, kept sorted in place, and a counter.
    Each method is the body of one section under the lock. Its contract ties the new slices to the old ones
    entry by entry, and shows that the section does what the step machine's step does. */
module TaskQueues {
  import opened Options
  import opened Sorting
  import opened Tasks
  import opened Scheduler

  ghost predicate DistinctIds(s: seq<Task>) {
    forall i, j | 0 <= i < j < |s| :: s[i].id != s[j].id
  }

  /** A list of entries, by id. */
  ghost function ById(s: seq<Task>): map<nat, Task>
    requires DistinctIds(s)
  {
    map t | t in s :: t.id := t
  }

  ghost function AsSet(s: seq<Task>): set<Task> {
    set t | t in s
  }

  /** In the queue or running there is a ready entry of the same source name and kind. */
  ghost predicate EqualIsReady(e: Task, data: seq<Task>, running: seq<Task>) {
    exists x :: (x in data || x in running) && x.source.name == e.source.name && x.kind == e.kind && x.state == Ready
  }

  /** A list has a ready entry of the same source name and kind. */
  ghost predicate EqualIsReadyAt(e: Task, t: seq<Task>) {
    exists i :: 0 <= i < |t| && t[i].source.name == e.source.name && t[i].kind == e.kind && t[i].state == Ready
  }

  lemma EqualInEither(e: Task, data: seq<Task>, running: seq<Task>)
    ensures EqualIsReady(e, data, running) <==> EqualIsReadyAt(e, data) || EqualIsReadyAt(e, running)
  {
    if EqualIsReadyAt(e, data) {
      var i :| 0 <= i < |data| && data[i].source.name == e.source.name && data[i].kind == e.kind
          && data[i].state == Ready;
      assert data[i] in data;
    }
    if EqualIsReadyAt(e, running) {
      var i :| 0 <= i < |running| && running[i].source.name == e.source.name && running[i].kind == e.kind
               && running[i].state == Ready;
      assert running[i] in running;
    }
  }

  lemma OnlyEntry(d: seq<Task>, i: nat)
    requires DistinctIds(d) && i < |d|
    ensures forall e | e in d && e.id == d[i].id :: e == d[i]
  {
  }

  /** An entry leaves the queue first in line and is returned as it was if it is to be skipped; otherwise the worker
      is noted in it and it is listed as running. */
  ghost predicate LeavesAs(e: Task, data: seq<Task>, data': seq<Task>, running: seq<Task>, running': seq<Task>,
                         worker: nat, next: Task) {
    && Foremost(e, AsSet(data)) && e.state != Pending && multiset(data') == multiset(data) - multiset{e}
    && (if e.state == Skip then next == e && running' == running
        else next == e.(assignedWorker := Some(worker)) && running' == running + [next])
  }

  ghost predicate InOrder(s: seq<Task>) {
    DistinctIds(s) && Sorted(Before, s)
  }

  lemma BeforeOrders(s: seq<Task>)
    requires DistinctIds(s)
    ensures StrictOrder(Before) && TotalOn(Before, s)
  {
    forall a: Task, b: Task, c: Task
      ensures !Before(a, a) && (Before(a, b) && Before(b, c) ==> Before(a, c))
    {
      BeforeIsStrictTotalOrder(a, b, c);
    }
    forall a, b | a in s && b in s
      ensures a == b || Before(a, b) || Before(b, a)
    {
      BeforeIsStrictTotalOrder(a, b, a);
    }
  }

  lemma SameMultiset(s: seq<Task>, t: seq<Task>)
    requires DistinctIds(s) && multiset(s) == multiset(t)
    ensures DistinctIds(t) && ById(t) == ById(s)
  {
    SameElements(s, t);
    DistinctMultiplicity(s);
    forall i, j | 0 <= i < j < |t|
      ensures t[i].id != t[j].id
    {
      RepeatedEntry(t, i, j);
      assert t[i] in s && t[j] in s;
    }
  }

  lemma SortedList(s: seq<Task>)
    requires DistinctIds(s)
    ensures InOrder(Sort(Before, s)) && ById(Sort(Before, s)) == ById(s)
  {
    BeforeOrders(s);
    SortSorted(Before, s);
    SameMultiset(s, Sort(Before, s));
  }

  lemma AppendById(s: seq<Task>, t: Task)
    requires DistinctIds(s) && t.id !in ById(s)
    ensures DistinctIds(s + [t]) && ById(s + [t]) == ById(s)[t.id := t]
  {
    forall x | x in s
      ensures x.id != t.id
    {
      assert x.id in ById(s);
    }
  }

  /** Entry `i` overwritten with the last one, and the list shortened by one. */
  function SwappedOut(s: seq<Task>, i: nat): seq<Task>
    requires i < |s|
  {
    s[i := s[|s|-1]][..|s|-1]
  }

  lemma SwapOutMultiset(s: seq<Task>, i: nat)
    requires i < |s|
    ensures multiset(SwappedOut(s, i)) == multiset(s) - multiset{s[i]}
  {
    var last := |s| - 1;
    assert s == s[..last] + [s[last]];
    if i < last {
      assert s[..last] == s[..i] + [s[i]] + s[i+1..last];
      assert SwappedOut(s, i) == s[..i] + [s[last]] + s[i+1..last];
    } else {
      assert SwappedOut(s, i) == s[..last];
    }
  }

  lemma SwapOutElements(s: seq<Task>, i: nat)
    requires i < |s| && DistinctIds(s)
    ensures forall x :: x in SwappedOut(s, i) <==> x in s && x.id != s[i].id
    ensures DistinctIds(SwappedOut(s, i))
  {
    var r := SwappedOut(s, i);
    forall x | x in s && x.id != s[i].id
      ensures x in r
    {
      var j :| 0 <= j < |s| && s[j] == x;
      assert j == |s| - 1 ==> r[i] == x;
      assert j < |s| - 1 ==> r[j] == x;
    }
  }

  lemma SwapOut(s: seq<Task>, i: nat)
    requires i < |s| && DistinctIds(s)
    ensures var r := SwappedOut(s, i); DistinctIds(r) && ById(r) == ById(s) - {s[i].id}
  {
    SwapOutElements(s, i);
    hide SwappedOut;
    var r, m := SwappedOut(s, i), ById(s) - {s[i].id};
    assert s[i] in s;
    forall k
      ensures k in ById(r) <==> k in m
      ensures k in m ==> ById(r)[k] == m[k]
    {
    }
  }

  lemma UpdateById(s: seq<Task>, i: nat, t: Task)
    requires i < |s| && DistinctIds(s) && t.id == s[i].id
    ensures DistinctIds(s[i := t]) && ById(s[i := t]) == ById(s)[t.id := t]
  {
    var r := s[i := t];
    assert r[i] == t;
    forall x
      ensures x in r <==> x == t || (x in s && x.id != t.id)
    {
      if x in s && x.id != t.id {
        var j :| 0 <= j < |s| && s[j] == x;
        assert r[j] == x;
      }
    }
  }

  /** The head of a sorted list is the one entry that precedes all others. */
  lemma HeadIsFirst(s: seq<Task>)
    requires InOrder(s) && s != []
    ensures IsFirst(ById(s), s[0].id)
    ensures s[0].state.Pending? ==> forall k | k in ById(s) :: ById(s)[k].state.Pending?
  {
    assert s[0] in s;
    forall x | x in s && x.id != s[0].id
      ensures Before(s[0], x)
    {
      BeforeIsStrictTotalOrder(s[0], x, x);
    }
  }

  /** The slices and the counter, as every section under the lock leaves them. The running list is sorted
      only when something is taken out of it. */
  ghost predicate GoodQueue(data: seq<Task>, running: seq<Task>, next: nat) {
    && InOrder(data) && DistinctIds(running)
    && (forall t | t in data :: t.id < next)
  }

  /** They are the queue that a state of the step machine describes. */
  ghost predicate Describes(s: State, data: seq<Task>, running: seq<Task>, next: nat) {
    GoodQueue(data, running, next) && s.data == ById(data) && s.running == ById(running) && s.nextTaskID == next
  }

  lemma SortedAppend(d: seq<Task>, r: seq<Task>, n: nat, t: Task)
    requires GoodQueue(d, r, n) && t.id == n
    ensures GoodQueue(Sort(Before, d + [t]), r, n + 1) && ById(Sort(Before, d + [t])) == ById(d)[n := t]
    ensures multiset(Sort(Before, d + [t])) == multiset(d) + multiset{t}
  {
    AppendById(d, t);
    hide Sort, ById, InOrder, DistinctIds, Before;
    SortedList(d + [t]);
    SameElements(Sort(Before, d + [t]), d + [t]);
  }

  lemma EnqueueDescribes(s: State, d: seq<Task>, r: seq<Task>, n: nat, task: Task)
    requires Describes(s, d, r, n)
    ensures var t := task.(id := n);
            && Describes(Enqueued(s, task), Sort(Before, d + [t]), r, n + 1)
            && multiset(Sort(Before, d + [t])) == multiset(d) + multiset{t}
  {
    hide Sort, ById, GoodQueue, Before;
    SortedAppend(d, r, n, task.(id := n));
  }

  lemma MarkDescribes(s: State, d: seq<Task>, r: seq<Task>, n: nat, i: nat, t: Task)
    requires Describes(s, d, r, n) && i < |d|
    requires t == d[i].(state := if SameReady(ById(d), d[i]) || SameReady(ById(r), d[i]) then Skip else Ready)
    ensures d[i].id in s.data && Describes(Marked(s, d[i].id), Sort(Before, d[i := t]), r, n)
    ensures multiset(Sort(Before, d[i := t])) == multiset(d) - multiset{d[i]} + multiset{t}
    ensures s.data[d[i].id] == d[i] && Marked(s, d[i].id).data[d[i].id] == t
  {
    assert d[i] in d;
    assert ById(d)[d[i].id] == d[i];
    UpdateById(d, i, t);
    SortedList(d[i := t]);
    UpdatedMultiset(d, i, t);
    SameElements(Sort(Before, d[i := t]), d[i := t]);
    UpdatedIds(d, i, t);
    hide Sort, ById, InOrder, DistinctIds, SameReady;
  }

  lemma UpdatedIds(d: seq<Task>, i: nat, t: Task)
    requires i < |d| && t.id == d[i].id
    ensures forall x | x in d[i := t] :: exists y :: y in d && y.id == x.id
  {
    forall x | x in d[i := t]
      ensures exists y :: y in d && y.id == x.id
    {
      var j :| 0 <= j < |d| && d[i := t][j] == x;
      assert d[j] in d && d[j].id == x.id;
    }
  }

  lemma NotFound(d: seq<Task>, id: nat)
    requires DistinctIds(d) && forall x | x in d :: x.id != id
    ensures id !in ById(d)
  {
  }

  lemma FoundById(d: seq<Task>, i: nat)
    requires DistinctIds(d) && i < |d|
    ensures d[i].id in ById(d) && ById(d)[d[i].id] == d[i]
  {
    assert d[i] in d;
  }

  lemma DequeueGood(d: seq<Task>, r: seq<Task>, n: nat)
    requires GoodQueue(d, r, n) && d != []
    ensures var d' := Sort(Before, SwappedOut(d, 0));
            && GoodQueue(d', r, n) && multiset(d') == multiset(d) - multiset{d[0]}
            && ById(d') == ById(d) - {d[0].id}
  {
    SwapOut(d, 0);
    SwapOutMultiset(d, 0);
    SwapOutElements(d, 0);
    SortedList(SwappedOut(d, 0));
    SameElements(Sort(Before, SwappedOut(d, 0)), SwappedOut(d, 0));
    hide Sort, ById, InOrder, DistinctIds, SwappedOut;
  }

  lemma RemoveGood(d: seq<Task>, r: seq<Task>, n: nat, i: nat)
    requires GoodQueue(d, r, n) && i < |r|
    ensures var r' := Sort(Before, SwappedOut(r, i));
            && GoodQueue(d, r', n) && multiset(r') == multiset(r) - multiset{r[i]}
            && ById(r') == ById(r) - {r[i].id}
  {
    SwapOut(r, i);
    SwapOutMultiset(r, i);
    SortedList(SwappedOut(r, i));
    hide Sort, ById, InOrder, DistinctIds, SwappedOut;
  }

  lemma TakeDescribes(s: State, w: nat, d: seq<Task>, r: seq<Task>, n: nat, d': seq<Task>)
    requires Describes(s, d, r, n) && d != [] && s.data.Keys !! s.running.Keys
    requires w < |s.workers| && LooksAtQueue(s.workers[w].at) && !d[0].state.Pending?
    requires GoodQueue(d', r, n) && ById(d') == ById(d) - {d[0].id}
    ensures Enabled(s, Take(w, d[0].id)) && !Enabled(s, Park(w))
    ensures d[0].state.Skip? ==> Describes(Taken(s, w, d[0].id), d', r, n)
    ensures d[0].state.Ready? ==>
              Describes(Taken(s, w, d[0].id), d', r + [d[0].(assignedWorker := Some(w))], n)
  {
    HeadIsFirst(d);
    FoundById(d, 0);
    var t := d[0].(assignedWorker := Some(w));
    AppendById(r, t);
    hide Sort, ById, InOrder, DistinctIds;
  }

  lemma ParkDescribes(s: State, w: nat, d: seq<Task>, r: seq<Task>, n: nat)
    requires Describes(s, d, r, n) && (d != [] ==> d[0].state.Pending?)
    requires w < |s.workers| && LooksAtQueue(s.workers[w].at)
    ensures Enabled(s, Park(w))
  {
    if d != [] {
      HeadIsFirst(d);
    }
  }

  /** Taking an entry out of the running list is the machine's step for the worker that ran it. */
  lemma RemovalEnds(s: State, w: nat, id: nat, d: seq<Task>, r: seq<Task>, r': seq<Task>, n: nat)
    requires GoodQueue(d, r, n) && GoodQueue(d, r', n) && DistinctIds(r) && DistinctIds(r')
             && ById(r') == ById(r) - {id}
    ensures Describes(s, d, r, n) && Enabled(s, RemoveRunning(w)) && id == s.workers[w].at.task.id ==>
              Describes(Do(s, RemoveRunning(w)), d, r', n)
  {
    hide ById;
  }

  class TaskQueue {
    var data: seq<Task>
    var running: seq<Task>
    var nextTaskID: nat

    ghost predicate Valid()
      reads this
    {
      GoodQueue(data, running, nextTaskID)
    }

    ghost predicate Represents(s: State)
      reads this
    {
      Describes(s, data, running, nextTaskID)
    }

    constructor ()
      ensures Valid() && data == [] && running == [] && nextTaskID == 0
    {
      data, running, nextTaskID := [], [], 0;
    }

    /** The locked part of `enqueue`: the new entry is added to what was there; nothing is replaced. */
    method Enqueue(task: Task, ghost s: State)
      requires Represents(s)
      modifies this
      ensures Represents(Enqueued(s, task))
      ensures multiset(data) == multiset(old(data)) + multiset{task.(id := old(nextTaskID))}
      ensures running == old(running) && nextTaskID == old(nextTaskID) + 1
    {
      hide Describes, Sort, Enqueued;
      EnqueueDescribes(s, data, running, nextTaskID, task);
      var t := task.(id := nextTaskID);
      nextTaskID := nextTaskID + 1;
      data := Sort(Before, data + [t]);
    }

    static method IdxWithID(t: seq<Task>, id: nat) returns (ret: int)
      ensures ret == -1 || 0 <= ret < |t|
      ensures 0 <= ret ==> t[ret].id == id && forall j | 0 <= j < ret :: t[j].id != id
      ensures ret == -1 ==> forall x | x in t :: x.id != id
    {
      ret := -1;
      for i := 0 to |t|
        invariant ret == -1 && forall j | 0 <= j < i :: t[j].id != id
      {
        if t[i].id == id {
          ret := i;
          break;
        }
      }
    }

    static method SameTaskExistsAndReady(t: seq<Task>, task: Task) returns (found: bool)
      requires DistinctIds(t)
      ensures found <==> SameReady(ById(t), task)
      ensures found <==> exists i :: 0 <= i < |t| && t[i].source.name == task.source.name && t[i].kind == task.kind
                                     && t[i].state == Ready
    {
      for i := 0 to |t|
        invariant forall j | 0 <= j < i :: !(SameWork(t[j], task) && t[j].state.Ready?)
      {
        if t[i].source.name == task.source.name && t[i].kind == task.kind && t[i].state == Ready {
          assert t[i] in t;
          assert SameWork(ById(t)[t[i].id], task);
          return true;
        }
      }
      return false;
    }

    /** The callback of a timer. It signals exactly when it finds its entry. */
    method TimerFires(id: nat, ghost s: State) returns (signal: bool)
      requires Represents(s)
      modifies this`data
      ensures signal <==> id in s.data
      ensures signal <==> exists e :: e in old(data) && e.id == id
      ensures forall e | e in old(data) && e.id == id ::
                multiset(data) == multiset(old(data)) - multiset{e}
                                  + multiset{e.(state := if EqualIsReady(e, old(data), running) then Skip else Ready)}
      ensures Represents(if id in s.data then Marked(s, id) else s)
      ensures signal ==> multiset(data) == multiset(old(data)) - multiset{s.data[id]} + multiset{Marked(s, id).data[id]}
      ensures !signal ==> data == old(data)
    {
      hide Describes, GoodQueue, Sort, ById, IsFirst, SameReady, Marked, Taken, Enabled, InOrder, DistinctIds,
        SwappedOut, LooksAtQueue, EqualIsReady;
      DescribesLists(s, data, running, nextTaskID);
      var idx := IdxWithID(data, id);
      if idx < 0 {
        NotFound(data, id);
        return false;
      }
      FoundById(data, idx);
      var foundTask := data[idx];
      var inData := SameTaskExistsAndReady(data, foundTask);
      var inRunning := SameTaskExistsAndReady(running, foundTask);
      assert inData == EqualIsReadyAt(foundTask, data) && inRunning == EqualIsReadyAt(foundTask, running);
      hide EqualIsReadyAt;
      var marked := foundTask.(state := if inData || inRunning then Skip else Ready);
      MarkDescribes(s, data, running, nextTaskID, idx, marked);
      EqualInEither(foundTask, data, running);
      OnlyEntry(data, idx);
      data := Sort(Before, data[idx := marked]);
      signal := true;
    }

    /** `dequeueNoLock` returns the one first entry and takes out nothing else. */
    method DequeueNoLock() returns (ret: Task)
      requires Valid() && data != []
      modifies this`data
      ensures Valid()
      ensures ret == old(data)[0] && IsFirst(ById(old(data)), ret.id)
      ensures Foremost(ret, AsSet(old(data)))
      ensures multiset(data) == multiset(old(data)) - multiset{ret}
      ensures ById(data) == ById(old(data)) - {ret.id}
    {
      hide Sort, ById, GoodQueue, SwappedOut, IsFirst;
      DequeueGood(data, running, nextTaskID);
      GoodHead(data, running, nextTaskID);
      ret := data[0];
      data := Sort(Before, SwappedOut(data, 0));
    }

    /** `deleteTaskWithID` on the running list takes out exactly the entry with that id. */
    method DeleteRunning(id: nat, ghost worker: nat, ghost s: State)
      requires Valid()
      modifies this`running
      ensures Valid()
      ensures ById(running) == ById(old(running)) - {id}
      ensures id in ById(old(running))
              ==> multiset(running) == multiset(old(running)) - multiset{ById(old(running))[id]}
      ensures id !in ById(old(running)) ==> running == old(running)
      ensures old(Represents(s)) && Enabled(s, RemoveRunning(worker)) && id == s.workers[worker].at.task.id ==>
                Represents(Do(s, RemoveRunning(worker)))
    {
      ghost var was := running;
      hide Sort, ById, GoodQueue, SwappedOut, Describes, Enabled, Do;
      GoodLists(data, running, nextTaskID);
      var idx := IdxWithID(running, id);
      if idx >= 0 {
        FoundById(running, idx);
        RemoveGood(data, running, nextTaskID, idx);
        running := Sort(Before, SwappedOut(running, idx));
      } else {
        NotFound(running, id);
      }
      GoodLists(data, running, nextTaskID);
      RemovalEnds(s, worker, id, data, was, running, nextTaskID);
    }

    /** The locked part of `runNext`: the worker has to wait exactly when nothing is runnable, and otherwise
        leaves with the first entry, listed as running unless it is to be skipped. */
    method RunNextLocked(worker: nat, ghost s: State) returns (next: Option<Task>)
      requires Represents(s) && s.data.Keys !! s.running.Keys
      requires worker < |s.workers| && LooksAtQueue(s.workers[worker].at)
      modifies this
      ensures next.None? <==> Enabled(s, Park(worker))
      ensures next.None? <==> forall x | x in old(data) :: x.state == Pending
      ensures next.Some? ==> exists e :: LeavesAs(e, old(data), data, old(running), running, worker, next.value)
      ensures next.None? ==> data == old(data) && running == old(running)
      ensures next.Some? ==> Enabled(s, Take(worker, next.value.id)) && Represents(Taken(s, worker, next.value.id))
      ensures nextTaskID == old(nextTaskID)
    {
      hide Describes, GoodQueue, Sort, ById, IsFirst, SameReady, Marked, Taken, Enabled, InOrder, DistinctIds,
        SwappedOut, LooksAtQueue;
      DescribesLists(s, data, running, nextTaskID);
      if data != [] {
        GoodHead(data, running, nextTaskID);
      }
      if |data| == 0 || data[0].state == Pending {
        ParkDescribes(s, worker, data, running, nextTaskID);
        return None;
      }
      ghost var d, r := data, running;
      var ret := DequeueNoLock();
      TakeDescribes(s, worker, d, running, nextTaskID, data);
      ghost var e := ret;
      if ret.state == Skip {
        assert LeavesAs(e, d, data, r, running, worker, ret);
        return Some(ret);
      }
      ret := ret.(assignedWorker := Some(worker));
      running := running + [ret];
      assert LeavesAs(e, d, data, r, running, worker, ret);
      return Some(ret);
    }
  }

  lemma DescribesLists(s: State, d: seq<Task>, r: seq<Task>, n: nat)
    requires Describes(s, d, r, n)
    ensures GoodQueue(d, r, n) && DistinctIds(d) && DistinctIds(r) && s.data == ById(d) && s.running == ById(r)
  {
  }

  lemma GoodLists(d: seq<Task>, r: seq<Task>, n: nat)
    requires GoodQueue(d, r, n)
    ensures DistinctIds(d) && DistinctIds(r)
  {
  }

  lemma GoodHead(d: seq<Task>, r: seq<Task>, n: nat)
    requires GoodQueue(d, r, n) && d != []
    ensures IsFirst(ById(d), d[0].id) && Foremost(d[0], AsSet(d))
    ensures d[0].state == Pending <==> forall x | x in d :: x.state == Pending
  {
    HeadIsFirst(d);
    HeadIsForemost(d);
  }

  lemma HeadIsForemost(d: seq<Task>)
    requires InOrder(d) && d != []
    ensures Foremost(d[0], AsSet(d))
  {
    forall x | x in d && x.id != d[0].id
      ensures Before(d[0], x)
    {
      BeforeIsStrictTotalOrder(d[0], x, x);
    }
  }

  lemma UpdatedMultiset(s: seq<Task>, i: nat, t: Task)
    requires i < |s|
    ensures multiset(s[i := t]) == multiset(s) - multiset{s[i]} + multiset{t}
  {
    assert s == s[..i] + [s[i]] + s[i+1..];
    assert s[i := t] == s[..i] + [t] + s[i+1..];
  }
}
