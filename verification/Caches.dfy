/** The certificate cache of `server/cache.go`: a store from certificate keys to entries, changed by diffs. */
module Caches {
  import opened Options
  import opened Paths
  import opened Sorting

  datatype Metadata = Metadata(commonName: string, notAfter: int)
  datatype CacheObject = CacheObject(meta: Metadata, paths: seq<PathObject>)
  type Store = map<string, CacheObject>

  function Lookup(m: Store, key: string): Option<CacheObject> {
    if key in m then Some(m[key]) else None
  }

  function PathSet(s: seq<PathObject>): set<PathObject> {
    set p | p in s
  }

  function PathsAt(m: Store, key: string): set<PathObject> {
    if key in m then PathSet(m[key].paths) else {}
  }

  ghost predicate OrderedStore(m: Store) {
    forall k | k in m :: Ordered(m[k].paths)
  }

  /** Every entry lists at least one path, each path once, in order. */
  ghost predicate StrictStore(m: Store) {
    forall k | k in m :: StrictlyOrdered(m[k].paths) && m[k].paths != []
  }

  // What each operation does to one entry.

  function Deleted(entry: Option<CacheObject>, del: seq<PathObject>): Option<CacheObject> {
    match entry
    case None => None
    case Some(e) =>
      var rest := Without(e.paths, del);
      if rest == [] then None else Some(e.(paths := rest))
  }

  function Added(entry: Option<CacheObject>, obj: CacheObject): CacheObject {
    match entry
    case None => obj
    case Some(e) => e.(paths := Merged(e.paths, obj.paths))
  }

  /** The paths of an old entry that its new counterpart no longer lists. */
  function ToDelete(o: CacheObject, n: Option<CacheObject>): seq<PathObject> {
    match n
    case None => o.paths
    case Some(nv) => Minus(o.paths, multiset(nv.paths))
  }

  /** The new entry, with only the paths its old counterpart did not list. */
  function ToAdd(o: Option<CacheObject>, n: CacheObject): CacheObject {
    match o
    case None => n
    case Some(ov) => n.(paths := Minus(n.paths, multiset(ov.paths)))
  }

  /** What the first loop of `ApplyDiff(o, n)` leaves of an entry `g` of the cache it is applied to. */
  function Kept(g: Option<CacheObject>, o: Option<CacheObject>, n: Option<CacheObject>): Option<CacheObject> {
    if o.Some? then Deleted(g, ToDelete(o.value, n)) else g
  }

  /** The outcome of `ApplyDiff(o, n)` for an entry. */
  function DiffEntry(g: Option<CacheObject>, o: Option<CacheObject>, n: Option<CacheObject>): Option<CacheObject> {
    var kept := Kept(g, o, n);
    if n.Some? then Some(Added(kept, ToAdd(o, n.value))) else kept
  }

  function DiffStore(g: Store, o: Store, n: Store): (r: Store)
    ensures forall k :: Lookup(r, k) == DiffEntry(Lookup(g, k), Lookup(o, k), Lookup(n, k))
  {
    map k | k in g.Keys + n.Keys && DiffEntry(Lookup(g, k), Lookup(o, k), Lookup(n, k)).Some? ::
      DiffEntry(Lookup(g, k), Lookup(o, k), Lookup(n, k)).value
  }

  // `calcDiff` while `left` are the keys of `o` still to be visited.

  ghost predicate AreDeletes(toDelete: map<string, seq<PathObject>>, o: Store, n: Store, left: set<string>) {
    && toDelete.Keys == o.Keys - left
    && forall k | k in toDelete :: toDelete[k] == ToDelete(o[k], Lookup(n, k)) && Ordered(toDelete[k])
  }

  ghost predicate AreAdds(toAdd: Store, o: Store, n: Store, keys: set<string>) {
    && toAdd.Keys == keys * n.Keys
    && forall k | k in toAdd :: toAdd[k] == ToAdd(Lookup(o, k), n[k]) && Ordered(toAdd[k].paths)
  }

  lemma VisitKey(visited: set<string>, left: set<string>, k: string)
    requires k in left
    ensures (visited + {k}) + (left - {k}) == visited + left
  {
  }

  lemma DiffsStart(o: Store, n: Store)
    ensures AreDeletes(map[], o, n, o.Keys) && AreAdds(map[], o, n, {})
  {
  }

  lemma OrderedEntry(m: Store, k: string)
    requires OrderedStore(m) && k in m
    ensures Ordered(m[k].paths)
  {
  }

  lemma ExtendDeletes(toDelete: map<string, seq<PathObject>>, o: Store, n: Store, left: set<string>, k: string,
                      del: seq<PathObject>)
    requires AreDeletes(toDelete, o, n, left) && k in o && k in left && Ordered(del)
    requires if k in n then del == Minus(o[k].paths, multiset(n[k].paths)) else del == o[k].paths
    ensures AreDeletes(toDelete[k := del], o, n, left - {k})
  {
    hide Ordered, Minus;
  }

  lemma ExtendAdds(toAdd: Store, o: Store, n: Store, keys: set<string>, k: string, obj: CacheObject)
    requires AreAdds(toAdd, o, n, keys) && k in n && Ordered(obj.paths)
    requires obj == if k in o then n[k].(paths := Minus(n[k].paths, multiset(o[k].paths))) else n[k]
    ensures AreAdds(toAdd[k := obj], o, n, keys + {k})
  {
    hide Ordered, Minus;
  }

  /** A key that `n` lacks needs no addition. */
  lemma SkipAdd(toAdd: Store, o: Store, n: Store, keys: set<string>, k: string)
    requires AreAdds(toAdd, o, n, keys) && (k in n ==> k in keys)
    ensures AreAdds(toAdd, o, n, keys + {k})
  {
  }

  lemma DiffsEnd(toDelete: map<string, seq<PathObject>>, toAdd: Store, o: Store, n: Store)
    requires AreDeletes(toDelete, o, n, {}) && AreAdds(toAdd, o, n, o.Keys + n.Keys)
    ensures toDelete.Keys == o.Keys && toAdd.Keys == n.Keys
  {
  }

  class Cache {
    var store: Store

    constructor ()
      ensures store == map[]
    {
      store := map[];
    }

    /** `calcDiff`: for every key of `o`, and for every key of `n`, what has to go and what has to come. */
    static method CalcDiff(o: Cache, n: Cache)
      returns (toDelete: map<string, seq<PathObject>>, toAdd: Store)
      requires OrderedStore(o.store) && OrderedStore(n.store)
      ensures AreDeletes(toDelete, o.store, n.store, {})
      ensures AreAdds(toAdd, o.store, n.store, o.store.Keys + n.store.Keys)
    {
      hide *;
      toDelete, toAdd := map[], map[];
      var oldKeys := o.store.Keys;
      ghost var visited := {};
      DiffsStart(o.store, n.store);
      while oldKeys != {}
        invariant oldKeys <= o.store.Keys && visited + oldKeys == o.store.Keys
        invariant AreDeletes(toDelete, o.store, n.store, oldKeys) && AreAdds(toAdd, o.store, n.store, visited)
        decreases |oldKeys|
      {
        var oldKey :| oldKey in oldKeys;
        OrderedEntry(o.store, oldKey);
        if oldKey !in n.store {
          ExtendDeletes(toDelete, o.store, n.store, oldKeys, oldKey, o.store[oldKey].paths);
          SkipAdd(toAdd, o.store, n.store, visited, oldKey);
          toDelete := toDelete[oldKey := o.store[oldKey].paths];
        } else {
          OrderedEntry(n.store, oldKey);
          var thisToDelete, thisToAdd := PathListDiff(o.store[oldKey].paths, n.store[oldKey].paths);
          ExtendDeletes(toDelete, o.store, n.store, oldKeys, oldKey, thisToDelete);
          ExtendAdds(toAdd, o.store, n.store, visited, oldKey, n.store[oldKey].(paths := thisToAdd));
          toDelete := toDelete[oldKey := thisToDelete];
          toAdd := toAdd[oldKey := n.store[oldKey].(paths := thisToAdd)];
        }
        VisitKey(visited, oldKeys, oldKey);
        oldKeys, visited := oldKeys - {oldKey}, visited + {oldKey};
      }
      toAdd := AddNewKeys(o, n, toAdd);
    }

    /** The second loop of `calcDiff`. */
    static method AddNewKeys(o: Cache, n: Cache, shared: Store) returns (toAdd: Store)
      requires OrderedStore(n.store) && AreAdds(shared, o.store, n.store, o.store.Keys)
      ensures AreAdds(toAdd, o.store, n.store, o.store.Keys + n.store.Keys)
    {
      hide *;
      toAdd := shared;
      var newKeys := n.store.Keys;
      ghost var visited := o.store.Keys;
      while newKeys != {}
        invariant newKeys <= n.store.Keys && o.store.Keys <= visited
        invariant visited + newKeys == o.store.Keys + n.store.Keys
        invariant AreAdds(toAdd, o.store, n.store, visited)
        decreases |newKeys|
      {
        var newKey :| newKey in newKeys;
        if newKey !in o.store {
          OrderedEntry(n.store, newKey);
          ExtendAdds(toAdd, o.store, n.store, visited, newKey, n.store[newKey]);
          toAdd := toAdd[newKey := n.store[newKey]];
        } else {
          SkipAdd(toAdd, o.store, n.store, visited, newKey);
        }
        VisitKey(visited, newKeys, newKey);
        newKeys, visited := newKeys - {newKey}, visited + {newKey};
      }
      assert visited == o.store.Keys + n.store.Keys;
    }

    method DeletePaths(key: string, toDelete: seq<PathObject>)
      requires OrderedStore(store) && Ordered(toDelete)
      modifies this
      ensures Lookup(store, key) == Deleted(Lookup(old(store), key), toDelete)
      ensures key in store ==> key in old(store) && store[key].meta == old(store)[key].meta
      ensures forall k | k != key :: Lookup(store, k) == Lookup(old(store), k)
      ensures OrderedStore(store)
    {
      if key !in store {
        return;
      }
      var obj := store[key];
      var workingCopy := DeleteSorted(obj.paths, toDelete);
      if |workingCopy| == 0 {
        store := store - {key};
        return;
      }
      WithoutOrdered(obj.paths, toDelete);
      store := store[key := obj.(paths := workingCopy)];
    }

    method AddNewFrom(key: string, obj: CacheObject)
      requires OrderedStore(store) && Ordered(obj.paths)
      modifies this
      ensures Lookup(store, key) == Some(Added(Lookup(old(store), key), obj))
      ensures key in store && store[key].meta == if key in old(store) then old(store)[key].meta else obj.meta
      ensures forall k | k != key :: Lookup(store, k) == Lookup(old(store), k)
      ensures OrderedStore(store)
    {
      if key !in store {
        store := store[key := obj];
        return;
      }
      var existing := store[key];
      var paths := MergeSorted(existing.paths, obj.paths);
      store := store[key := existing.(paths := paths)];
    }

    method Merge(key: string, obj: CacheObject)
      requires OrderedStore(store) && Ordered(obj.paths)
      modifies this
      ensures store == old(store)[key := Added(Lookup(old(store), key), obj)]
      ensures OrderedStore(store)
    {
      AddNewFrom(key, obj);
      ghost var want := old(store)[key := Added(Lookup(old(store), key), obj)];
      forall k
        ensures Lookup(store, k) == Lookup(want, k)
      {
      }
      SameLookups(store, want);
    }

    /** `ApplyDiff` visits the keys in any order and leaves every entry as `DiffEntry` says. */
    method ApplyDiff(o: Cache, n: Cache)
      requires OrderedStore(store) && OrderedStore(o.store) && OrderedStore(n.store)
      modifies this
      ensures store == DiffStore(old(store), old(o.store), old(n.store))
      ensures OrderedStore(store)
    {
      hide *;
      ghost var g, o0, n0 := store, o.store, n.store;
      var keysToDelete, keysToAdd := CalcDiff(o, n);
      DiffsEnd(keysToDelete, keysToAdd, o0, n0);
      var keys := keysToDelete.Keys;
      ApplyStart(g, keysToDelete, keysToAdd);
      while keys != {}
        invariant keys <= keysToDelete.Keys && OrderedStore(store)
        invariant DeletedBut(store, g, keysToDelete, keys)
        decreases |keys|
      {
        var key :| key in keys;
        DeleteIsOrdered(keysToDelete, o0, n0, key);
        ghost var before := store;
        DeletePaths(key, keysToDelete[key]);
        DeletedStep(before, store, g, keysToDelete, keys, key);
        keys := keys - {key};
      }
      keys := keysToAdd.Keys;
      AddStart(store, g, keysToDelete, keysToAdd);
      while keys != {}
        invariant keys <= keysToAdd.Keys && OrderedStore(store)
        invariant AddedBut(store, g, keysToDelete, keysToAdd, keys)
        decreases |keys|
      {
        var key :| key in keys;
        AddIsOrdered(keysToAdd, o0, n0, key);
        ghost var before := store;
        AddNewFrom(key, keysToAdd[key]);
        AddedStep(before, store, g, keysToDelete, keysToAdd, keys, key);
        keys := keys - {key};
      }
      ApplyEnd(store, g, o0, n0, keysToDelete, keysToAdd);
    }
  }

  // The two phases of `ApplyDiff`, with `keys` still to be visited.

  ghost function AfterDeletes(g: Store, dels: map<string, seq<PathObject>>, k: string): Option<CacheObject> {
    if k in dels then Deleted(Lookup(g, k), dels[k]) else Lookup(g, k)
  }

  ghost predicate DeletedBut(m: Store, g: Store, dels: map<string, seq<PathObject>>, keys: set<string>) {
    forall k :: Lookup(m, k) == if k in keys then Lookup(g, k) else AfterDeletes(g, dels, k)
  }

  ghost predicate AddedBut(m: Store, g: Store, dels: map<string, seq<PathObject>>, adds: Store, keys: set<string>) {
    forall k :: Lookup(m, k) ==
                if k in adds && k !in keys then Some(Added(AfterDeletes(g, dels, k), adds[k]))
                    else AfterDeletes(g, dels, k)
  }

  lemma ApplyStart(g: Store, dels: map<string, seq<PathObject>>, adds: Store)
    ensures DeletedBut(g, g, dels, dels.Keys)
  {
  }

  lemma DeleteIsOrdered(dels: map<string, seq<PathObject>>, o: Store, n: Store, key: string)
    requires AreDeletes(dels, o, n, {}) && key in dels
    ensures Ordered(dels[key])
  {
  }

  lemma AddIsOrdered(adds: Store, o: Store, n: Store, key: string)
    requires AreAdds(adds, o, n, o.Keys + n.Keys) && key in adds
    ensures Ordered(adds[key].paths)
  {
  }

  lemma DeletedStep(before: Store, after: Store, g: Store, dels: map<string, seq<PathObject>>, keys: set<string>,
                    key: string)
    requires DeletedBut(before, g, dels, keys) && key in keys && key in dels
    requires Lookup(after, key) == Deleted(Lookup(before, key), dels[key])
    requires forall k | k != key :: Lookup(after, k) == Lookup(before, k)
    ensures DeletedBut(after, g, dels, keys - {key})
  {
    hide Deleted, Lookup;
  }

  lemma AddStart(m: Store, g: Store, dels: map<string, seq<PathObject>>, adds: Store)
    requires DeletedBut(m, g, dels, {})
    ensures AddedBut(m, g, dels, adds, adds.Keys)
  {
    hide Deleted, Lookup, Added;
  }

  lemma AddedStep(before: Store, after: Store, g: Store, dels: map<string, seq<PathObject>>, adds: Store,
                  keys: set<string>, key: string)
    requires AddedBut(before, g, dels, adds, keys) && key in keys && key in adds
    requires Lookup(after, key) == Some(Added(Lookup(before, key), adds[key]))
    requires forall k | k != key :: Lookup(after, k) == Lookup(before, k)
    ensures AddedBut(after, g, dels, adds, keys - {key})
  {
    hide Deleted, Lookup, Added;
  }

  lemma ApplyEnd(m: Store, g: Store, o: Store, n: Store, dels: map<string, seq<PathObject>>, adds: Store)
    requires AddedBut(m, g, dels, adds, {})
    requires AreDeletes(dels, o, n, {}) && AreAdds(adds, o, n, o.Keys + n.Keys)
    ensures m == DiffStore(g, o, n)
  {
    hide Deleted, Added, ToDelete, ToAdd, Ordered;
    forall k
      ensures Lookup(m, k) == Lookup(DiffStore(g, o, n), k)
    {
    }
    SameLookups(m, DiffStore(g, o, n));
  }

  lemma SameLookups(m: Store, m': Store)
    requires forall k :: Lookup(m, k) == Lookup(m', k)
    ensures m == m'
  {
    forall k
      ensures k in m <==> k in m'
      ensures k in m ==> m[k] == m'[k]
    {
      assert Lookup(m, k) == Lookup(m', k);
    }
  }

  /** The scan of `addNewFrom` always yields the right set of paths, whatever the inputs. */
  lemma MergedHasUnion(e: seq<PathObject>, a: seq<PathObject>)
    ensures PathSet(Merged(e, a)) == PathSet(e) + PathSet(a)
  {
    hide LessThan, CommonPrefix, Sort;
    var k := CommonPrefix(e, a);
    SameElements(Merged(e, a), e + a[k..]);
    hide Merged;
    forall p
      ensures p in e + a[k..] <==> p in e || p in a
    {
      FrontOrRest(a, k, p);
      FrontOrRest(e, k, p);
    }
  }

  lemma FrontOrRest(s: seq<PathObject>, k: nat, p: PathObject)
    requires k <= |s|
    ensures p in s <==> p in s[..k] || p in s[k..]
  {
    assert s == s[..k] + s[k..];
  }

  /** Exactly when the merge of two duplicate-free lists is duplicate-free: nothing past their common
      prefix may occur on both sides. */
  lemma MergedStrictIff(e: seq<PathObject>, a: seq<PathObject>)
    requires StrictlyOrdered(e) && StrictlyOrdered(a)
    ensures StrictlyOrdered(Merged(e, a)) <==> PathSet(a[CommonPrefix(e, a)..]) !! PathSet(e)
  {
    hide LessThan, StringLess;
    var tail := a[CommonPrefix(e, a)..];
    var r := Merged(e, a);
    StrictIsOrdered(e);
    StrictIsOrdered(tail);
    assert multiset(r) == multiset(e) + multiset(tail);
    if StrictlyOrdered(r) {
      StrictIsOrdered(r);
      forall p | p in tail
        ensures p !in e
      {
        assert multiset(r)[p] == multiset(e)[p] + multiset(tail)[p];
      }
    }
    if PathSet(tail) !! PathSet(e) {
      forall p
        ensures multiset(r)[p] <= 1
      {
        assert p in tail ==> p in PathSet(tail);
        assert p in e ==> p in PathSet(e);
      }
      SortOrdered(e + tail);
      OrderedDistinctIsStrict(r);
    }
  }

  /** Adding a path that is already listed, but not first, lists it twice. */
  lemma MergedMayDuplicate(x: PathObject, y: PathObject)
    requires LessThan(x, y)
    ensures Merged([x, y], [y]) == [x, y, y] && !StrictlyOrdered([x, y, y])
  {
    hide LessThan, StringLess, Sort;
    Compare(x, y, y);
    Compare(y, y, y);
    assert CommonPrefix([x, y], [y]) == 0;
    hide CommonPrefix;
    assert [y][0..] == [y] && [x, y] + [y] == [x, y, y];
    LessThanIsStrictTotalOrder();
    SortSorted(LessThan, [x, y, y]);
    SortedUnique(LessThan, Sort(LessThan, [x, y, y]), [x, y, y]);
    var r := [x, y, y];
    assert !LessThan(r[1], r[2]);
  }

  ghost predicate StrictEntry(e: Option<CacheObject>) {
    e.Some? ==> StrictlyOrdered(e.value.paths) && e.value.paths != []
  }

  function PathsOf(e: Option<CacheObject>): set<PathObject> {
    if e.Some? then PathSet(e.value.paths) else {}
  }

  lemma StrictEntryPresent(e: Option<CacheObject>)
    requires StrictEntry(e)
    ensures e.Some? <==> PathsOf(e) != {}
  {
    if e.Some? {
      assert e.value.paths[0] in PathsOf(e);
    }
  }

  /** The set of paths a diff leaves in an entry, whatever the entry lists: nothing is asked of `g`, nor that the
      three fit together. */
  lemma DiffEntrySet(g: Option<CacheObject>, o: Option<CacheObject>, n: Option<CacheObject>)
    requires o.Some? ==> StrictlyOrdered(o.value.paths)
    requires n.Some? ==> StrictlyOrdered(n.value.paths)
    ensures PathsOf(DiffEntry(g, o, n)) == (PathsOf(g) - (PathsOf(o) - PathsOf(n))) + (PathsOf(n) - PathsOf(o))
  {
    hide LessThan, StringLess, StrictlyOrdered, Merged, Minus, Deleted, Without;
    KeptSet(g, o, n);
    var kept := Kept(g, o, n);
    if n.Some? {
      AddSet(o, n.value);
      if kept.Some? {
        MergedHasUnion(kept.value.paths, ToAdd(o, n.value).paths);
      }
    }
    hide PathSet;
  }

  lemma KeptSet(g: Option<CacheObject>, o: Option<CacheObject>, n: Option<CacheObject>)
    requires o.Some? ==> StrictlyOrdered(o.value.paths)
    requires n.Some? ==> StrictlyOrdered(n.value.paths)
    ensures PathsOf(Kept(g, o, n)) == PathsOf(g) - (PathsOf(o) - PathsOf(n))
  {
    hide LessThan, StringLess, StrictlyOrdered, Minus, Deleted, PathSet;
    if o.Some? {
      DeletedSet(g, ToDelete(o.value, n));
      if n.Some? {
        MinusSet(o.value.paths, n.value.paths);
      }
    }
  }

  lemma AddSet(o: Option<CacheObject>, n: CacheObject)
    requires StrictlyOrdered(n.paths) && (o.Some? ==> StrictlyOrdered(o.value.paths))
    ensures PathSet(ToAdd(o, n).paths) == PathSet(n.paths) - PathsOf(o) && StrictlyOrdered(ToAdd(o, n).paths)
  {
    hide LessThan, StringLess, StrictlyOrdered, Minus, PathSet;
    if o.Some? {
      MinusSet(n.paths, o.value.paths);
    }
  }

  lemma DeletedSet(g: Option<CacheObject>, del: seq<PathObject>)
    ensures PathsOf(Deleted(g, del)) == PathsOf(g) - PathSet(del)
  {
    if g.Some? {
      WithoutElements(g.value.paths, del);
      assert PathSet(Without(g.value.paths, del)) == PathSet(g.value.paths) - PathSet(del);
    }
  }

  /** The delete phase keeps the order, and an entry left with nothing goes. */
  lemma KeptStrict(g: Option<CacheObject>, o: Option<CacheObject>, n: Option<CacheObject>)
    requires StrictEntry(g) && StrictEntry(o) && StrictEntry(n)
    ensures StrictEntry(Kept(g, o, n))
  {
    hide LessThan, StringLess, StrictlyOrdered, Without, Minus, PathSet;
    if o.Some? && g.Some? {
      DeletedFacts(g.value, ToDelete(o.value, n));
    }
  }

  /** What two sets have in common comes first in both. */
  ghost predicate SharedFirst(s: set<PathObject>, t: set<PathObject>) {
    forall p, q | p in s && p in t && LessThan(q, p) :: q in s <==> q in t
  }

  lemma IndexIn(s: seq<PathObject>, p: PathObject) returns (i: nat)
    requires p in PathSet(s)
    ensures i < |s| && s[i] == p
  {
    i :| 0 <= i < |s| && s[i] == p;
  }

  lemma EachOnce(s: seq<PathObject>, i: nat, j: nat)
    requires StrictlyOrdered(s) && i < |s| && j < |s| && s[i] == s[j]
    ensures i == j
  {
    hide LessThan, StringLess;
    Compare(s[i], s[j], s[j]);
  }

  lemma BelowIn(s: seq<PathObject>, q: PathObject, i: nat) returns (j: nat)
    requires StrictlyOrdered(s) && i < |s| && q in PathSet(s) && LessThan(q, s[i])
    ensures j < i && s[j] == q
  {
    hide LessThan, StringLess;
    j := IndexIn(s, q);
    Compare(s[j], s[i], s[i]);
  }

  /** Nothing past the common prefix of two lists is in both exactly if what they have in common comes first. */
  lemma SharedFirstIff(e: seq<PathObject>, a: seq<PathObject>)
    requires StrictlyOrdered(e) && StrictlyOrdered(a)
    ensures PathSet(a[CommonPrefix(e, a)..]) !! PathSet(e) <==> SharedFirst(PathSet(e), PathSet(a))
  {
    hide *;
    if SharedFirst(PathSet(e), PathSet(a)) {
      PrefixIsAllShared(e, a);
    }
    if PathSet(a[CommonPrefix(e, a)..]) !! PathSet(e) {
      AllSharedIsFirst(e, a);
    }
  }

  lemma InSuffix(s: seq<PathObject>, c: nat, i: nat)
    requires c <= i < |s|
    ensures s[i] in PathSet(s[c..])
  {
    assert s[c..][i-c] == s[i];
  }

  lemma AllSharedIsFirst(e: seq<PathObject>, a: seq<PathObject>)
    requires StrictlyOrdered(e) && StrictlyOrdered(a) && PathSet(a[CommonPrefix(e, a)..]) !! PathSet(e)
    ensures SharedFirst(PathSet(e), PathSet(a))
  {
    hide LessThan, StringLess, CommonPrefix, StrictlyOrdered;
    var c := CommonPrefix(e, a);
    forall p, q | p in PathSet(e) && p in PathSet(a) && LessThan(q, p)
      ensures q in PathSet(e) <==> q in PathSet(a)
    {
      var i := IndexIn(a, p);
      if c <= i {
        InSuffix(a, c, i);
      }
      PrefixAgrees(e, a, i);
      if q in PathSet(e) {
        var j := BelowIn(e, q, i);
        PrefixAgrees(e, a, j);
      } else if q in PathSet(a) {
        var j := BelowIn(a, q, i);
        PrefixAgrees(e, a, j);
      }
    }
  }

  lemma PrefixIsAllShared(e: seq<PathObject>, a: seq<PathObject>)
    requires StrictlyOrdered(e) && StrictlyOrdered(a) && SharedFirst(PathSet(e), PathSet(a))
    ensures PathSet(a[CommonPrefix(e, a)..]) !! PathSet(e)
  {
    hide LessThan, StringLess, CommonPrefix, StrictlyOrdered;
    var c := CommonPrefix(e, a);
    forall p | p in PathSet(a[c..])
      ensures p !in PathSet(e)
    {
      if p in PathSet(e) {
        var i := IndexIn(a[c..], p);
        var j := IndexIn(e, p);
        FirstDifference(e, a, c + i, j);
      }
    }
  }

  /** A path past the common prefix in both lists has one before it that is in one list only. */
  lemma FirstDifference(e: seq<PathObject>, a: seq<PathObject>, i: nat, j: nat)
    requires StrictlyOrdered(e) && StrictlyOrdered(a) && CommonPrefix(e, a) <= i < |a| && j < |e| && a[i] == e[j]
    ensures !SharedFirst(PathSet(e), PathSet(a))
  {
    hide LessThan, StringLess, CommonPrefix;
    var c, p := CommonPrefix(e, a), a[i];
    if j < c {
      PrefixAgrees(e, a, j);
      EachOnce(a, i, j);
    }
    assert e[c] in PathSet(e) && a[c] in PathSet(a) && p in PathSet(e) && p in PathSet(a);
    Compare(e[c], a[c], p);
    hide PathSet, StrictlyOrdered;
    if LessThan(e[c], a[c]) {
      NotBelow(a, e, e[c], c);
    } else {
      NotBelow(e, a, a[c], c);
    }
  }

  /** A path between two neighbours of a list, up to which it agrees with another list that has the path, is not in
      it. */
  lemma NotBelow(s: seq<PathObject>, t: seq<PathObject>, q: PathObject, c: nat)
    requires StrictlyOrdered(s) && StrictlyOrdered(t) && c < |s| && c < |t| && t[c] == q && s[..c] == t[..c]
    requires LessThan(q, s[c])
    ensures q !in PathSet(s)
  {
    hide LessThan, StringLess;
    if q in PathSet(s) {
      var j := BelowIn(s, q, c);
      assert s[..c][j] == t[..c][j];
      Compare(t[j], t[c], t[c]);
    }
  }

  /** Exactly when a diff leaves an entry in order, without a path listed twice: if something is added at all, then
      something is there, and what is added of what is there already comes first on both sides. */
  lemma DiffEntryStrictIff(g: Option<CacheObject>, o: Option<CacheObject>, n: Option<CacheObject>)
    requires StrictEntry(g) && StrictEntry(o) && StrictEntry(n)
    ensures var kept, add := PathsOf(g) - (PathsOf(o) - PathsOf(n)), PathsOf(n) - PathsOf(o);
            StrictEntry(DiffEntry(g, o, n)) <==> (n.Some? ==> kept + add != {} && SharedFirst(kept, add))
  {
    hide LessThan, StringLess, StrictlyOrdered, Merged, Kept, ToAdd, PathSet, SharedFirst;
    KeptSet(g, o, n);
    KeptStrict(g, o, n);
    var kept := Kept(g, o, n);
    StrictEntryPresent(kept);
    if n.Some? {
      AddSet(o, n.value);
      var add := ToAdd(o, n.value).paths;
      if kept.Some? {
        SharedFirstIff(kept.value.paths, add);
        MergedStrictIff(kept.value.paths, add);
        MergedNonempty(kept.value.paths, add);
      } else {
        NothingShared(PathSet(add));
        EmptyPathSet(add);
      }
    }
  }

  lemma NothingShared(t: set<PathObject>)
    ensures SharedFirst({}, t)
  {
  }

  lemma EmptyPathSet(s: seq<PathObject>)
    ensures PathSet(s) == {} <==> s == []
  {
    assert s != [] ==> s[0] in PathSet(s);
  }

  /** The algebra of `ApplyDiff` for one entry: what `o` and `n` do not share goes and comes, the rest stays. */
  lemma DiffEntryAlgebra(g: Option<CacheObject>, o: Option<CacheObject>, n: Option<CacheObject>)
    requires StrictEntry(g) && StrictEntry(o) && StrictEntry(n)
    requires PathsOf(o) <= PathsOf(g) && (PathsOf(g) - PathsOf(o)) !! PathsOf(n)
    ensures var r := DiffEntry(g, o, n);
            StrictEntry(r) && PathsOf(r) == (PathsOf(g) - (PathsOf(o) - PathsOf(n))) + (PathsOf(n) - PathsOf(o))
  {
    DiffEntrySet(g, o, n);
    DiffEntryStrictIff(g, o, n);
    hide DiffEntry, LessThan, StringLess, StrictEntry, PathsOf;
    StrictEntryPresent(n);
  }

  /** An entry of which something is left keeps its metadata; one that is new, or was emptied on the way, gets the new
      cache's. */
  lemma DiffEntryMetadata(g: Option<CacheObject>, o: Option<CacheObject>, n: Option<CacheObject>)
    requires StrictEntry(g) && StrictEntry(o) && StrictEntry(n) && DiffEntry(g, o, n).Some?
    ensures var left, m := PathsOf(g) - (PathsOf(o) - PathsOf(n)), DiffEntry(g, o, n).value.meta;
            if left != {} then g.Some? && m == g.value.meta else n.Some? && m == n.value.meta
  {
    hide LessThan, StringLess, StrictlyOrdered, Merged, Minus, Without, PathSet;
    KeptSet(g, o, n);
    KeptStrict(g, o, n);
    StrictEntryPresent(Kept(g, o, n));
    hide StrictEntry, PathsOf;
  }

  lemma MinusSet(s: seq<PathObject>, t: seq<PathObject>)
    requires StrictlyOrdered(s) && StrictlyOrdered(t)
    ensures PathSet(Minus(s, multiset(t))) == PathSet(s) - PathSet(t)
    ensures StrictlyOrdered(Minus(s, multiset(t)))
  {
    hide LessThan, StringLess;
    StrictIsOrdered(s);
    StrictIsOrdered(t);
    var r := Minus(s, multiset(t));
    MinusOrdered(s, multiset(t));
    forall p
      ensures multiset(r)[p] <= 1
      ensures p in r <==> p in s && p !in t
    {
      assert p in r <==> multiset(r)[p] > 0;
    }
    OrderedDistinctIsStrict(r);
  }

  lemma DeletedFacts(e: CacheObject, del: seq<PathObject>)
    requires StrictlyOrdered(e.paths)
    ensures var d := Deleted(Some(e), del);
            && (d.Some? <==> PathSet(e.paths) - PathSet(del) != {})
            && (d.Some? ==> PathSet(d.value.paths) == PathSet(e.paths) - PathSet(del)
                            && StrictlyOrdered(d.value.paths) && d.value.paths != [])
  {
    hide LessThan, StringLess;
    WithoutElements(e.paths, del);
    WithoutStrict(e.paths, del);
    var r := Without(e.paths, del);
    assert PathSet(r) == PathSet(e.paths) - PathSet(del);
    if r != [] {
      assert r[0] in PathSet(r);
    }
  }

  lemma AddedFacts(e: seq<PathObject>, a: seq<PathObject>)
    requires StrictlyOrdered(e) && StrictlyOrdered(a) && PathSet(e) !! PathSet(a) && e != []
    ensures PathSet(Merged(e, a)) == PathSet(e) + PathSet(a)
    ensures StrictlyOrdered(Merged(e, a)) && Merged(e, a) != []
  {
    MergedHasUnion(e, a);
    MergedStrictIff(e, a);
    var tail := a[CommonPrefix(e, a)..];
    assert PathSet(tail) <= PathSet(a);
    assert e[0] in PathSet(e);
  }

  /** Exactly when `ApplyDiff` leaves an entry with no path: the key is in both old and new, nothing is to be
      added, and the cache it is applied to does not list a path that survives. */
  lemma EmptyEntryIff(g: Option<CacheObject>, o: Option<CacheObject>, n: Option<CacheObject>)
    requires g.Some? ==> g.value.paths != []
    requires n.Some? ==> n.value.paths != []
    ensures var r := DiffEntry(g, o, n);
            (r.Some? && r.value.paths == []) <==>
            && o.Some? && n.Some?
            && multiset(n.value.paths) <= multiset(o.value.paths)
            && (g.Some? ==> forall p | p in g.value.paths :: p in multiset(o.value.paths) - multiset(n.value.paths))
  {
    hide LessThan, StringLess, Merged, Minus, Without;
    if n.Some? {
      var add := ToAdd(o, n.value);
      if o.Some? {
        EmptyMinus(n.value.paths, o.value.paths);
        if g.Some? {
          EmptyDeleted(g.value, ToDelete(o.value, n));
          var kept := Deleted(g, ToDelete(o.value, n));
          if kept.Some? {
            MergedNonempty(kept.value.paths, add.paths);
          }
        }
      } else if g.Some? {
        MergedNonempty(g.value.paths, add.paths);
      }
    }
  }

  lemma EmptyDeleted(e: CacheObject, del: seq<PathObject>)
    ensures Deleted(Some(e), del).None? <==> forall p | p in e.paths :: p in multiset(del)
    ensures Deleted(Some(e), del).Some? ==> Deleted(Some(e), del).value.paths != []
  {
    WithoutElements(e.paths, del);
    var rest := Without(e.paths, del);
    if rest != [] {
      assert rest[0] in e.paths && rest[0] !in multiset(del);
    }
  }

  lemma EmptyMinus(s: seq<PathObject>, t: seq<PathObject>)
    ensures Minus(s, multiset(t)) == [] <==> multiset(s) <= multiset(t)
  {
    var r := Minus(s, multiset(t));
    hide Minus;
    if r == [] {
      forall x
        ensures multiset(s)[x] <= multiset(t)[x]
      {
        assert multiset(r)[x] == 0;
      }
    } else {
      assert multiset(r)[r[0]] > 0;
    }
  }

  lemma MergedNonempty(e: seq<PathObject>, a: seq<PathObject>)
    requires e != []
    ensures Merged(e, a) != []
  {
    MergedHasUnion(e, a);
    assert e[0] in PathSet(e);
  }
}
