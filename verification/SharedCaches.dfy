/** The cache of `server/cache.go` with its path lists as slices. `addNewFrom` stores the slice it is given, so after
    a refresh the global cache and the source's own cache share arrays, and later refreshes shift and sort them in
    place. As long as only whole lists are shared, every operation still does to the lists what it does to values, and
    a full list that someone else holds is never added to in place. */
module SharedCaches {
  import opened Options
  import opened Slices
  import opened Paths
  import opened Caches
  import opened SharedPaths

  datatype SliceObject = SliceObject(meta: Metadata, paths: Slice<PathObject>)
  type SliceStore = map<string, SliceObject>
  type ListMap = map<string, Slice<PathObject>>

  ghost predicate ValidStore(m: SliceStore) {
    forall k | k in m :: m[k].paths.Valid()
  }

  ghost function Arrays(m: SliceStore): set<array<PathObject>> {
    set k | k in m :: m[k].paths.arr
  }

  ghost function ArraysAt(m: SliceStore, key: string): set<array<PathObject>> {
    if key in m then {m[key].paths.arr} else {}
  }

  /** The arrays of the entries under some keys. */
  ghost function ArraysOf(m: SliceStore, keys: set<string>): set<array<PathObject>> {
    set k | k in m && k in keys :: m[k].paths.arr
  }

  /** Entries under other keys are the same. */
  ghost predicate Untouched(m: SliceStore, m0: SliceStore, keys: set<string>) {
    m - keys == m0 - keys
  }

  ghost function Value(e: SliceObject): CacheObject
    requires e.paths.Valid()
    reads e.paths.arr
  {
    CacheObject(e.meta, e.paths.Contents())
  }

  /** The store of values that a store of slices shows. */
  ghost function Values(m: SliceStore): Store
    requires ValidStore(m)
    reads Arrays(m)
  {
    map k | k in m :: Value(m[k])
  }

  /** The same as a relation, for use where other arrays change. */
  ghost predicate Shows(m: SliceStore, v: Store)
    reads Arrays(m)
  {
    m.Keys == v.Keys && forall k | k in m :: m[k].paths.Valid() && Value(m[k]) == v[k]
  }

  lemma ShowsValues(m: SliceStore, v: Store)
    ensures Shows(m, v) <==> ValidStore(m) && Values(m) == v
  {
  }

  ghost function ListArrays(d: ListMap): set<array<PathObject>> {
    set k | k in d :: d[k].arr
  }

  ghost predicate ListsShow(d: ListMap, v: map<string, seq<PathObject>>)
    reads ListArrays(d)
  {
    d.Keys == v.Keys && forall k | k in d :: d[k].Valid() && d[k].Contents() == v[k]
  }

  lemma PutList(d: ListMap, v: map<string, seq<PathObject>>, k: string, x: Slice<PathObject>)
    requires ListsShow(d, v) && x.Valid()
    ensures ListsShow(d[k := x], v[k := x.Contents()])
  {
  }

  lemma PutObject(m: SliceStore, v: Store, k: string, e: SliceObject)
    requires Shows(m, v) && e.paths.Valid()
    ensures Shows(m[k := e], v[k := Value(e)])
  {
  }

  /** No array is behind two keys. */
  ghost predicate Separate(m: SliceStore) {
    forall j, k | j in m && k in m && j != k :: m[j].paths.arr != m[k].paths.arr
  }

  /** Two stores share an array only as a whole list of one key. */
  ghost predicate WholeOnly(m: SliceStore, m': SliceStore) {
    forall j, k | j in m && k in m' && m[j].paths.arr == m'[k].paths.arr :: j == k && m[j].paths == m'[k].paths
  }

  lemma OrderedValue(m: SliceStore, k: string)
    requires ValidStore(m) && OrderedStore(Values(m)) && k in m
    ensures Ordered(m[k].paths.Contents()) && m[k].paths.Valid() && Values(m)[k] == Value(m[k])
  {
    hide Ordered;
    assert Values(m)[k] == Value(m[k]);
  }

  ghost predicate SameBut(v: Store, v': Store, key: string) {
    forall k | k != key :: Lookup(v', k) == Lookup(v, k)
  }

  function Replaced(m: SliceStore, key: string, e: Option<SliceObject>): SliceStore {
    if e.Some? then m[key := e.value] else m - {key}
  }

  /** Replacing one entry by one in an array that no other entry uses, while the others show what they did. */
  lemma EntryReplaced(m: SliceStore, key: string, e: Option<SliceObject>, v: Store)
    requires ValidStore(m) && Separate(m) && OrderedStore(v) && v.Keys == m.Keys
    requires forall k | k in m && k != key :: Value(m[k]) == v[k]
    requires e.Some? ==> e.value.paths.Valid() && Ordered(e.value.paths.Contents())
    requires e.Some? ==> forall k | k in m && k != key :: m[k].paths.arr != e.value.paths.arr
    ensures var m' := Replaced(m, key, e);
            && ValidStore(m') && Separate(m') && OrderedStore(Values(m')) && SameBut(v, Values(m'), key)
            && Lookup(Values(m'), key) == (if e.Some? then Some(Value(e.value)) else None)
            && m' - {key} == m - {key}
  {
    hide Ordered;
    var m' := Replaced(m, key, e);
    forall k | k != key
      ensures Lookup(Values(m'), k) == Lookup(v, k)
    {
    }
    hide Value, Lookup;
    forall k | k in m'
      ensures Ordered(Values(m')[k].paths)
    {
      ValueAt(m', k);
      if k != key {
        assert m'[k] == m[k] && Ordered(v[k].paths);
      }
    }
  }

  lemma ValueAt(m: SliceStore, k: string)
    requires ValidStore(m) && k in m
    ensures Values(m)[k] == Value(m[k]) && Value(m[k]).paths == m[k].paths.Contents() && Value(m[k]).meta == m[k].meta
  {
  }

  lemma DeletedIs(v: Store, key: string, meta: Metadata, p: seq<PathObject>, del: seq<PathObject>)
    requires key in v && v[key] == CacheObject(meta, p)
    ensures Deleted(Lookup(v, key), del) ==
            if Without(p, del) == [] then None else Some(CacheObject(meta, Without(p, del)))
  {
    hide Without;
  }

  /** Where `calcDiff` gets its lists from: from arrays of its own (`mine`), but for the old cache's own list of a key
      that is gone, and the new cache's own object for a key that is new. */
  ghost predicate ComesFrom(d: ListMap, a: SliceStore, o: SliceStore, n: SliceStore, mine: set<array<PathObject>>) {
    && (forall k | k in d :: if k in n then d[k].arr in mine else k in o && d[k] == o[k].paths)
    && (forall k | k in a :: if k in o then a[k].paths.arr in mine else k in n && a[k] == n[k])
    && Separate(a)
  }

  lemma GoneKey(d: ListMap, a: SliceStore, o: SliceStore, n: SliceStore, mine: set<array<PathObject>>, k: string)
    requires ComesFrom(d, a, o, n, mine) && k in o && k !in n
    ensures ComesFrom(d[k := o[k].paths], a, o, n, mine)
  {
    hide Separate;
  }

  lemma CommonKey(d: ListMap, a: SliceStore, o: SliceStore, n: SliceStore, mine: set<array<PathObject>>, k: string,
                  del: Slice<PathObject>, obj: SliceObject)
    requires ComesFrom(d, a, o, n, mine) && k in o && k in n && a.Keys <= o.Keys
    requires del.arr !in mine && obj.paths.arr !in mine
    ensures ComesFrom(d[k := del], a[k := obj], o, n, mine + {del.arr, obj.paths.arr})
  {
  }

  /** `calcDiff` while `left` are the keys of `o` still to be visited. */
  ghost predicate Diffing(d: ListMap, dels: map<string, seq<PathObject>>, a: SliceStore, adds: Store, o: SliceStore,
                          vo: Store, n: SliceStore, vn: Store, left: set<string>, visited: set<string>,
                          mine: set<array<PathObject>>)
    reads ListArrays(d), Arrays(a), Arrays(o), Arrays(n)
  {
    && Shows(o, vo) && Shows(n, vn)
    && ListsShow(d, dels) && AreDeletes(dels, vo, vn, left) && Shows(a, adds) && AreAdds(adds, vo, vn, visited)
    && ComesFrom(d, a, o, n, mine) && a.Keys <= o.Keys && visited + left == o.Keys
  }

  lemma DiffingGone(d: ListMap, dels: map<string, seq<PathObject>>, a: SliceStore, adds: Store, o: SliceStore,
                    vo: Store, n: SliceStore, vn: Store, left: set<string>, visited: set<string>,
                    mine: set<array<PathObject>>, k: string)
    requires Diffing(d, dels, a, adds, o, vo, n, vn, left, visited, mine)
    requires k in o && k !in n && k in left && Ordered(vo[k].paths)
    ensures Diffing(d[k := o[k].paths], dels[k := vo[k].paths], a, adds, o, vo, n, vn, left - {k}, visited + {k}, mine)
  {
    ExtendDeletes(dels, vo, vn, left, k, vo[k].paths);
    SkipAdd(adds, vo, vn, visited, k);
    PutList(d, dels, k, o[k].paths);
    GoneKey(d, a, o, n, mine, k);
    hide Ordered, AreDeletes, AreAdds, ListsShow, ComesFrom;
  }

  lemma DiffingCommon(d: ListMap, dels: map<string, seq<PathObject>>, a: SliceStore, adds: Store, o: SliceStore,
                      vo: Store, n: SliceStore, vn: Store, left: set<string>, visited: set<string>,
                      mine: set<array<PathObject>>, k: string, del: Slice<PathObject>, obj: SliceObject)
    requires Diffing(d, dels, a, adds, o, vo, n, vn, left, visited, mine)
    requires k in o && k in n && k in left && del.Valid() && obj.paths.Valid() && obj.meta == n[k].meta
    requires del.Contents() == Minus(vo[k].paths, multiset(vn[k].paths)) && Ordered(del.Contents())
    requires obj.paths.Contents() == Minus(vn[k].paths, multiset(vo[k].paths)) && Ordered(obj.paths.Contents())
    requires del.arr !in mine && obj.paths.arr !in mine
    ensures Diffing(d[k := del], dels[k := del.Contents()], a[k := obj], adds[k := Value(obj)], o, vo, n, vn,
                    left - {k}, visited + {k}, mine + {del.arr, obj.paths.arr})
  {
    hide Ordered, Minus;
    assert k in vo && k in vn && Value(obj) == vn[k].(paths := obj.paths.Contents());
    hide AreDeletes, AreAdds, ListsShow, ComesFrom, Shows, Value;
    ExtendDeletes(dels, vo, vn, left, k, del.Contents());
    ExtendAdds(adds, vo, vn, visited, k, Value(obj));
    PutList(d, dels, k, del);
    PutObject(a, adds, k, obj);
    CommonKey(d, a, o, n, mine, k, del, obj);
    VisitKey(visited, left, k);
  }

  /** One round of the first loop of `calcDiff`, for a key of both. */
  method DiffCommon(o: SliceCache, n: SliceCache, k: string, ghost taken: set<array<PathObject>>, ghost d: ListMap,
                    ghost dels: map<string, seq<PathObject>>, ghost a: SliceStore, ghost adds: Store, ghost vo: Store,
                    ghost vn: Store, ghost left: set<string>, ghost visited: set<string>,
                    ghost mine: set<array<PathObject>>)
    returns (del: Slice<PathObject>, obj: SliceObject)
    requires Diffing(d, dels, a, adds, o.store, vo, n.store, vn, left, visited, mine) && mine !! taken
    requires k in o.store && k in n.store && k in left && Ordered(vo[k].paths) && Ordered(vn[k].paths)
    ensures ({del.arr} + {obj.paths.arr}) !! taken && del.Valid() && obj.paths.Valid()
    ensures Diffing(d[k := del], dels[k := del.Contents()], a[k := obj], adds[k := Value(obj)], o.store, vo, n.store,
                    vn,
                    left - {k}, visited + {k}, mine + {del.arr, obj.paths.arr})
  {
    hide LessThan, StringLess, Ordered, Minus, AreDeletes, AreAdds, ComesFrom;
    ghost var ok, nk := vo[k].paths, vn[k].paths;
    assert o.store[k].paths.Contents() == ok && n.store[k].paths.Contents() == nk;
    assert n.store[k].meta == vn[k].meta;
    var toDelete, toAdd := DiffLists(o.store[k].paths, n.store[k].paths, taken + mine);
    del, obj := toDelete, n.store[k].(paths := toAdd);
    assert Diffing(d, dels, a, adds, o.store, vo, n.store, vn, left, visited, mine);
    hide Diffing, Shows;
    DiffingCommon(d, dels, a, adds, o.store, vo, n.store, vn, left, visited, mine, k, del, obj);
  }

  lemma AllVisited(d: ListMap, dels: map<string, seq<PathObject>>, a: SliceStore, adds: Store, o: SliceStore, vo: Store,
                   n: SliceStore, vn: Store, visited: set<string>, mine: set<array<PathObject>>)
    requires Diffing(d, dels, a, adds, o, vo, n, vn, {}, visited, mine)
    ensures visited == o.Keys
  {
    hide ListsShow, Shows, AreDeletes, AreAdds, ComesFrom;
    assert visited + {} == visited;
  }

  lemma DiffingStart(o: SliceStore, vo: Store, n: SliceStore, vn: Store)
    requires Shows(o, vo) && Shows(n, vn)
    ensures Diffing(map[], map[], map[], map[], o, vo, n, vn, o.Keys, {}, {})
  {
    DiffsStart(vo, vn);
  }

  lemma NewKeysComeFrom(d: ListMap, a: SliceStore, o: SliceStore, n: SliceStore, mine: set<array<PathObject>>)
    requires ComesFrom(d, a, o, n, mine) && a.Keys <= o.Keys
    requires Separate(n) && forall j | j in n :: n[j].paths.arr !in mine
    ensures ComesFrom(d, a + (n - o.Keys), o, n, mine)
  {
  }

  lemma NewKeysShown(a: SliceStore, adds: Store, o: SliceStore, vo: Store, n: SliceStore, vn: Store)
    requires Shows(a, adds) && Shows(o, vo) && Shows(n, vn)
    ensures Shows(a + (n - o.Keys), adds + (vn - vo.Keys))
  {
    hide Value;
  }

  lemma NewKeysAdded(adds: Store, o: Store, n: Store)
    requires AreAdds(adds, o, n, o.Keys) && OrderedStore(n)
    ensures AreAdds(adds + (n - o.Keys), o, n, o.Keys + n.Keys)
  {
    hide Ordered, Minus;
  }

  lemma OrderedShown(m: SliceStore, v: Store)
    requires OrderedStore(v) && Shows(m, v)
    ensures forall k | k in m :: Ordered(v[k].paths)
  {
  }

  lemma NoneLeft(a: SliceStore, n: SliceStore, gone: set<string>)
    ensures a + (n - (gone + {})) == a + (n - gone)
  {
    assert gone + {} == gone;
  }

  lemma NoneYet(a: SliceStore, n: SliceStore, gone: set<string>)
    ensures a + (n - (gone + n.Keys)) == a
  {
  }

  lemma OneMoreNew(a: SliceStore, n: SliceStore, gone: set<string>, left: set<string>, k: string)
    requires k in left && left <= n.Keys
    ensures a + (n - (gone + (left - {k}))) ==
            if k in gone then a + (n - (gone + left)) else (a + (n - (gone + left)))[k := n[k]]
  {
  }

  /** `pathListDiff`, whose results are built up in arrays of their own. */
  method DiffLists(o: Slice<PathObject>, n: Slice<PathObject>, ghost taken: set<array<PathObject>>)
    returns (toDelete: Slice<PathObject>, toAdd: Slice<PathObject>)
    requires o.Valid() && n.Valid() && Ordered(o.Contents()) && Ordered(n.Contents())
    ensures toDelete.arr != toAdd.arr && toDelete.arr !in taken && toAdd.arr !in taken
    ensures toDelete.Valid() && toAdd.Valid()
    ensures toDelete.Contents() == Minus(o.Contents(), multiset(n.Contents())) && Ordered(toDelete.Contents())
    ensures toAdd.Contents() == Minus(n.Contents(), multiset(o.Contents())) && Ordered(toAdd.Contents())
  {
    hide LessThan, StringLess, Ordered, Minus;
    var d, a := PathListDiff(o.arr[..o.len], n.arr[..n.len]);
    toDelete := Built(d);
    toAdd := Built(a);
  }

  // ---------- the loops of `ApplyDiff`

  /** Entries only shrink or go, in the arrays they had. */
  ghost predicate Shrunk(m: SliceStore, m0: SliceStore) {
    forall k | k in m :: k in m0 && m[k].paths.arr == m0[k].paths.arr
  }

  lemma WithinArrays(m: SliceStore, m0: SliceStore, gone: set<string>, come: set<string>)
    requires Shrunk(m, m0)
    ensures Arrays(m) <= Arrays(m0) && ArraysOf(m, come) <= ArraysOf(m0, gone + come)
  {
  }

  lemma UntouchedTwice(m: SliceStore, m1: SliceStore, m0: SliceStore, gone: set<string>, come: set<string>)
    requires Untouched(m, m1, come) && Untouched(m1, m0, gone)
    ensures Untouched(m, m0, gone + come)
  {
    assert m - (gone + come) == (m - come) - gone && m1 - (gone + come) == (m1 - come) - gone;
    assert m1 - (gone + come) == (m1 - gone) - come && m0 - (gone + come) == (m0 - gone) - come;
  }

  lemma KeysOfDiff(d: ListMap, a: SliceStore, m: SliceStore, o: SliceStore, n: SliceStore,
                   dels: map<string, seq<PathObject>>, adds: Store, vo: Store, vn: Store)
    requires d.Keys == dels.Keys && a.Keys == adds.Keys && vo.Keys == o.Keys && vn.Keys == n.Keys
    requires AreDeletes(dels, vo, vn, {}) && AreAdds(adds, vo, vn, vo.Keys + vn.Keys)
    ensures d.Keys == o.Keys && a.Keys == n.Keys && d.Keys + a.Keys == o.Keys + n.Keys
  {
    hide Ordered;
  }

  /** A list to delete is in an array of the store only as the whole list of its key. */
  ghost predicate DeletesWhole(d: ListMap, m: SliceStore) {
    forall j, k | j in d && k in m && d[j].arr == m[k].paths.arr :: j == k && d[j] == m[k].paths
  }

  ghost predicate OrderedLists(dels: map<string, seq<PathObject>>) {
    forall k | k in dels :: Ordered(dels[k])
  }

  /** The first loop, with `keys` still to be visited, in a store that now shows `v`. */
  ghost predicate Deleting(m: SliceStore, v: Store, m0: SliceStore, v0: Store, d: ListMap,
                           dels: map<string, seq<PathObject>>, keys: set<string>) {
    && Shrunk(m, m0) && Untouched(m, m0, d.Keys) && DeletedBut(v, v0, dels, keys) && DeletesWhole(d, m0)
        && keys <= d.Keys && d.Keys == dels.Keys
    && (forall k | k in keys && k in m :: m[k] == m0[k])
  }

  ghost predicate KeysShow(d: ListMap, v: map<string, seq<PathObject>>, keys: set<string>)
    reads ListArrays(d)
  {
    d.Keys == v.Keys && forall k | k in keys && k in d :: d[k].Valid() && d[k].Contents() == v[k]
  }

  lemma KeysStart(d: ListMap, v: map<string, seq<PathObject>>)
    requires ListsShow(d, v)
    ensures KeysShow(d, v, d.Keys) && d.Keys == v.Keys
  {
  }

  lemma DeletingStart(m: SliceStore, v: Store, d: ListMap, dels: map<string, seq<PathObject>>)
    requires DeletesWhole(d, m) && d.Keys == dels.Keys
    ensures Deleting(m, v, m, v, d, dels, d.Keys)
  {
  }

  lemma DeletingEnd(m: SliceStore, v: Store, m0: SliceStore, v0: Store, d: ListMap, dels: map<string, seq<PathObject>>)
    requires Deleting(m, v, m0, v0, d, dels, {})
    ensures Shrunk(m, m0) && Untouched(m, m0, d.Keys) && DeletedBut(v, v0, dels, {})
  {
  }

  lemma {:induction false} WithoutAll(p: seq<PathObject>, del: seq<PathObject>)
    requires forall x | x in p :: x in del
    ensures Without(p, del) == []
  {
    if p != [] {
      WithoutAll(p[1..], del);
    }
  }

  /** What `deletePaths` leaves is the deletion, also if the list to delete is the entry itself. */
  lemma DeletedWhole(e: Option<CacheObject>, del: seq<PathObject>, shared: bool)
    requires shared ==> e.Some? && e.value.paths == del
    ensures (if shared then None else Deleted(e, del)) == Deleted(e, del)
  {
    if shared {
      WithoutAll(del, del);
    }
  }

  lemma OtherListsApart(m: SliceStore, v: Store, m0: SliceStore, v0: Store, d: ListMap,
                        dels: map<string, seq<PathObject>>, keys: set<string>, key: string)
    requires Deleting(m, v, m0, v0, d, dels, keys) && key in keys
    ensures forall k | k in keys - {key} :: d[k].arr !in ArraysAt(m, key)
    ensures ArraysAt(m, key) <= ArraysOf(m0, d.Keys) && key in d && key in dels && keys <= d.Keys
  {
    hide DeletedBut;
  }

  lemma SharedIsWhole(m: SliceStore, v: Store, m0: SliceStore, v0: Store, d: ListMap,
                      dels: map<string, seq<PathObject>>, keys: set<string>, key: string)
    requires Deleting(m, v, m0, v0, d, dels, keys) && key in keys && Shows(m, v) && d[key].Valid()
    ensures var shared := key in m && d[key].arr == m[key].paths.arr && d[key].len > 0;
            var e := Lookup(v, key);
            (if shared then None else Deleted(e, d[key].Contents())) == Deleted(e, d[key].Contents())
  {
    hide Deleted, DeletedBut;
    var shared := key in m && d[key].arr == m[key].paths.arr && d[key].len > 0;
    if shared {
      assert m[key] == m0[key] && d[key] == m0[key].paths;
      assert Value(m[key]) == v[key];
    }
    DeletedWhole(Lookup(v, key), d[key].Contents(), shared);
  }

  lemma UntouchedStep(m: SliceStore, m': SliceStore, m0: SliceStore, keys: set<string>, key: string)
    requires Untouched(m, m0, keys) && m' - {key} == m - {key} && key in keys
    ensures Untouched(m', m0, keys)
  {
    assert m' - keys == (m' - {key}) - keys && m - keys == (m - {key}) - keys;
  }

  lemma DeletingStep(m: SliceStore, v: Store, m': SliceStore, v': Store, m0: SliceStore, v0: Store, d: ListMap,
                     dels: map<string, seq<PathObject>>, keys: set<string>, key: string)
    requires Deleting(m, v, m0, v0, d, dels, keys) && key in keys && m' - {key} == m - {key} && SameBut(v, v', key)
    requires key in m' ==> key in m && m'[key].paths.arr == m[key].paths.arr
    requires Lookup(v', key) == Deleted(Lookup(v, key), dels[key])
    ensures Deleting(m', v', m0, v0, d, dels, keys - {key})
  {
    hide Deleted, Lookup, DeletesWhole;
    forall k | k in m' && k != key
      ensures k in m && m'[k] == m[k]
    {
      assert k in m' - {key};
      assert (m' - {key})[k] == (m - {key})[k];
    }
    UntouchedStep(m, m', m0, d.Keys, key);
    hide Untouched;
    DeletedStep(v, v', v0, dels, keys, key);
  }

  /** Where an entry's array is from while the second loop has `keys` still to visit: it is the array the entry had,
      or the whole entry is the object that was added, or the array is new. */
  ghost predicate AtHome(m: SliceStore, m0: SliceStore, a: SliceStore, keys: set<string>,
                         taken: set<array<PathObject>>) {
    forall k | k in m ::
      || (k in m0 && m[k].paths.arr == m0[k].paths.arr)
      || (k in a && k !in keys && m[k] == a[k])
      || m[k].paths.arr !in taken
  }

  ghost predicate AddedOnly(v: Store, v0: Store, adds: Store, keys: set<string>) {
    forall k :: Lookup(v, k) ==
                if k in adds && k !in keys then Some(Added(Lookup(v0, k), adds[k])) else Lookup(v0, k)
  }

  /** The second loop, with `keys` still to be visited. */
  ghost predicate Adding(m: SliceStore, v: Store, m0: SliceStore, v0: Store, a: SliceStore, adds: Store,
                         keys: set<string>, taken: set<array<PathObject>>) {
    && AtHome(m, m0, a, keys, taken) && Untouched(m, m0, a.Keys) && AddedOnly(v, v0, adds, keys)
    && (forall k | k in keys && k in m :: k in m0 && m[k] == m0[k])
    && (forall k | k in keys && k in m0 :: k in m)
    && Separate(a) && keys <= a.Keys && a.Keys == adds.Keys
    && Arrays(a) !! Arrays(m0) && Arrays(a) + Arrays(m0) <= taken
  }

  ghost predicate ObjectsShow(a: SliceStore, v: Store, keys: set<string>)
    reads Arrays(a)
  {
    a.Keys == v.Keys && forall k | k in keys && k in a :: a[k].paths.Valid() && Value(a[k]) == v[k]
  }

  lemma ObjectsStart(a: SliceStore, v: Store)
    requires Shows(a, v)
    ensures ObjectsShow(a, v, a.Keys) && a.Keys == v.Keys
  {
  }

  lemma AddingStart(m: SliceStore, v: Store, a: SliceStore, adds: Store, taken: set<array<PathObject>>)
    requires Separate(a) && a.Keys == adds.Keys && Arrays(a) !! Arrays(m) && Arrays(a) + Arrays(m) <= taken
    ensures Adding(m, v, m, v, a, adds, a.Keys, taken)
  {
  }

  /** The object to be added is in an array that no entry uses, and the array the entry is in holds nothing that is
      still to be added. */
  lemma AddingApart(m: SliceStore, v: Store, m0: SliceStore, v0: Store, a: SliceStore, adds: Store, keys: set<string>,
                    taken: set<array<PathObject>>, key: string)
    requires Adding(m, v, m0, v0, a, adds, keys, taken) && key in keys
    ensures key in a && key in adds && a[key].paths.arr !in Arrays(m)
    ensures forall k | k in a && k in keys :: a[k].paths.arr !in ArraysAt(m, key)
    ensures ArraysAt(m, key) <= ArraysOf(m0, a.Keys)
  {
    hide AddedOnly;
    assert forall k | k in a :: a[k].paths.arr in Arrays(a);
    forall k | k in m
      ensures m[k].paths.arr != a[key].paths.arr
    {
      assert k in m0 ==> m0[k].paths.arr in Arrays(m0);
    }
    if key in m {
      assert key in m0 ==> m0[key].paths.arr in Arrays(m0);
    }
  }

  lemma StillFull(m: SliceStore, v: Store, m0: SliceStore, v0: Store, a: SliceStore, adds: Store, keys: set<string>,
                  taken: set<array<PathObject>>, f: ListMap, key: string)
    requires Adding(m, v, m0, v0, a, adds, keys, taken) && key in keys && FullLists(f, m0) && Separate(m0)
    ensures ListArrays(f - {key}) !! ArraysAt(m, key)
    ensures key in f ==> key in m && f[key] == m[key].paths && f[key].Full()
  {
    hide AddedOnly;
    if key in m {
      OtherFullApart(f, m0, key);
      assert ArraysAt(m, key) == ArraysAt(m0, key);
    }
  }

  lemma Elsewhere(m: SliceStore, m': SliceStore, key: string)
    requires m' - {key} == m - {key}
    ensures forall k | k != key :: (k in m' <==> k in m) && (k in m ==> m'[k] == m[k])
  {
    forall k | k != key
      ensures (k in m' <==> k in m) && (k in m ==> m'[k] == m[k])
    {
      assert k in m' <==> k in m' - {key};
      assert k in m <==> k in m - {key};
      assert k in m ==> (m' - {key})[k] == (m - {key})[k];
    }
  }

  lemma AddedOneMore(v: Store, v': Store, v0: Store, adds: Store, keys: set<string>, key: string)
    requires AddedOnly(v, v0, adds, keys) && key in keys && key in adds && SameBut(v, v', key)
    requires Lookup(v', key) == Some(Added(Lookup(v, key), adds[key]))
    ensures AddedOnly(v', v0, adds, keys - {key})
  {
    hide Added, Lookup;
  }

  lemma AddingStep(m: SliceStore, v: Store, m': SliceStore, v': Store, m0: SliceStore, v0: Store, a: SliceStore,
                   adds: Store, keys: set<string>, taken: set<array<PathObject>>, key: string)
    requires Adding(m, v, m0, v0, a, adds, keys, taken) && key in keys && m' - {key} == m - {key} && SameBut(v, v', key)
    requires key in m'
    requires if key in m then m'[key].paths.arr == m[key].paths.arr || m'[key].paths.arr !in taken
             else m'[key] == a[key]
    requires Lookup(v', key) == Some(Added(Lookup(v, key), adds[key]))
    ensures Adding(m', v', m0, v0, a, adds, keys - {key}, taken)
  {
    hide Added, Lookup;
    UntouchedStep(m, m', m0, a.Keys, key);
    hide Untouched, AddedOnly;
    Elsewhere(m, m', key);
    AddedOneMore(v, v', v0, adds, keys, key);
  }

  lemma AddingEnd(m: SliceStore, v: Store, m0: SliceStore, v0: Store, a: SliceStore, adds: Store,
                  taken: set<array<PathObject>>)
    requires Adding(m, v, m0, v0, a, adds, {}, taken)
    ensures AtHome(m, m0, a, {}, taken) && Untouched(m, m0, a.Keys) && AddedOnly(v, v0, adds, {})
  {
  }

  lemma ListsApart(d: ListMap, a: SliceStore, m: SliceStore, o: SliceStore, n: SliceStore, mine: set<array<PathObject>>,
                   taken: set<array<PathObject>>)
    requires ComesFrom(d, a, o, n, mine) && mine !! taken && Arrays(m) + Arrays(n) <= taken
    requires WholeOnly(m, o) && Arrays(m) !! Arrays(n)
    ensures DeletesWhole(d, m) && Arrays(a) !! Arrays(m) && Separate(a)
    ensures Arrays(a) + Arrays(m) <= taken + mine
  {
    assert forall k | k in m :: m[k].paths.arr in Arrays(m);
    assert forall k | k in n :: n[k].paths.arr in Arrays(n);
    hide Separate;
    forall x | x in Arrays(a)
      ensures x in mine + Arrays(n)
    {
      var k :| k in a && a[k].paths.arr == x;
      assert k in o || k in n;
    }
  }

  lemma DiffsOrdered(dels: map<string, seq<PathObject>>, adds: Store, o: Store, n: Store)
    requires AreDeletes(dels, o, n, {}) && AreAdds(adds, o, n, o.Keys + n.Keys)
    ensures OrderedLists(dels) && OrderedStore(adds)
  {
    hide Ordered;
  }

  lemma BothLoops(v2: Store, v1: Store, v0: Store, o: Store, n: Store, dels: map<string, seq<PathObject>>, adds: Store)
    requires AddedOnly(v2, v1, adds, {}) && DeletedBut(v1, v0, dels, {})
    requires AreDeletes(dels, o, n, {}) && AreAdds(adds, o, n, o.Keys + n.Keys)
    ensures v2 == DiffStore(v0, o, n)
  {
    assert AddedBut(v2, v0, dels, adds, {}) by { hide Lookup, Deleted, Added; }
    hide AddedBut, AreDeletes, AreAdds, DiffStore;
    ApplyEnd(v2, v0, o, n, dels, adds);
  }

  lemma ReadyToApply(d: ListMap, a: SliceStore, m: SliceStore, o: SliceStore, n: SliceStore,
                     dels: map<string, seq<PathObject>>, adds: Store, vo: Store, vn: Store,
                     mine: set<array<PathObject>>, taken: set<array<PathObject>>)
    requires ListsShow(d, dels) && Shows(a, adds) && vo.Keys == o.Keys && vn.Keys == n.Keys
    requires AreDeletes(dels, vo, vn, {}) && AreAdds(adds, vo, vn, vo.Keys + vn.Keys)
    requires ComesFrom(d, a, o, n, mine) && mine !! taken && Arrays(m) + Arrays(n) <= taken
    requires WholeOnly(m, o) && Arrays(m) !! Arrays(n)
    ensures DeletesWhole(d, m) && Arrays(a) !! Arrays(m) && Separate(a) && Arrays(a) + Arrays(m) <= taken + mine
    ensures OrderedLists(dels) && OrderedStore(adds) && d.Keys + a.Keys == o.Keys + n.Keys && d.Keys == o.Keys
  {
    assert d.Keys == dels.Keys && a.Keys == adds.Keys;
    hide *;
    ListsApart(d, a, m, o, n, mine, taken);
    DiffsOrdered(dels, adds, vo, vn);
    KeysOfDiff(d, a, m, o, n, dels, adds, vo, vn);
  }

  // ---------- full lists, which nothing is ever written to but by deletions

  /** Some of the full lists of a store. */
  ghost predicate FullLists(f: ListMap, m: SliceStore) {
    forall k | k in f :: k in m && f[k] == m[k].paths && f[k].Full()
  }

  /** An entry with such a list stays as it is or moves to a new array. */
  ghost predicate StayFull(m: SliceStore, f: ListMap, taken: set<array<PathObject>>) {
    forall k | k in f && k in m :: m[k].paths == f[k] || m[k].paths.arr !in taken
  }

  lemma StayFullStart(m: SliceStore, f: ListMap, taken: set<array<PathObject>>)
    requires FullLists(f, m)
    ensures StayFull(m, f, taken)
  {
  }

  lemma StayFullStep(m: SliceStore, m': SliceStore, f: ListMap, taken: set<array<PathObject>>, key: string)
    requires StayFull(m, f, taken) && m' - {key} == m - {key} && key in m'
    requires key in f ==> m'[key].paths == f[key] || m'[key].paths.arr !in taken
    ensures StayFull(m', f, taken)
  {
    forall k | k in f && k in m' && k != key
      ensures m'[k].paths == f[k] || m'[k].paths.arr !in taken
    {
      assert k in m' - {key};
      assert (m' - {key})[k] == (m - {key})[k];
    }
  }

  lemma StayFullFewer(m: SliceStore, f: ListMap, taken: set<array<PathObject>>, fewer: set<array<PathObject>>)
    requires StayFull(m, f, taken) && fewer <= taken
    ensures StayFull(m, f, fewer)
  {
  }

  lemma OtherFullApart(f: ListMap, m: SliceStore, key: string)
    requires FullLists(f, m) && Separate(m)
    ensures ListArrays(f - {key}) !! ArraysAt(m, key)
  {
  }

  lemma ListsAgain(f: ListMap, v: map<string, seq<PathObject>>, key: string)
    requires f.Keys == v.Keys && ListsShow(f - {key}, v - {key})
    requires key in f ==> f[key].Valid() && f[key].Contents() == v[key]
    ensures ListsShow(f, v)
  {
    forall k | k in f && k != key
      ensures f[k].Valid() && f[k].Contents() == v[k]
    {
      assert (f - {key})[k] == f[k] && (v - {key})[k] == v[k];
    }
  }

  lemma ListsWithout(f: ListMap, v: map<string, seq<PathObject>>, key: string)
    requires ListsShow(f, v)
    ensures ListsShow(f - {key}, v - {key})
  {
  }

  /** Deleting from other entries does not touch them. */
  lemma FullApart(f: ListMap, m: SliceStore, keys: set<string>)
    requires FullLists(f, m) && Separate(m) && f.Keys !! keys
    ensures ListArrays(f) !! ArraysOf(m, keys)
  {
  }

  lemma FullUntouched(f: ListMap, m: SliceStore, m0: SliceStore, keys: set<string>)
    requires FullLists(f, m0) && Untouched(m, m0, keys) && f.Keys !! keys
    ensures FullLists(f, m)
  {
    forall k | k in f
      ensures k in m && m[k] == m0[k]
    {
      assert k in m0 - keys && (m0 - keys)[k] == m0[k];
      assert k in m - keys && (m - keys)[k] == m[k];
    }
  }

  /** Where the arrays of a store are from after `ApplyDiff`. */
  ghost predicate Settled(m: SliceStore, m0: SliceStore, n: SliceStore, taken: set<array<PathObject>>) {
    forall k | k in m ::
      || (k in m0 && m[k].paths.arr == m0[k].paths.arr)
      || (k in n && m[k] == n[k])
      || m[k].paths.arr !in taken
  }

  lemma SettledMeans(m: SliceStore, m0: SliceStore, n: SliceStore, taken: set<array<PathObject>>)
    requires Settled(m, m0, n, taken)
    ensures forall k | k in m ::
              || (k in m0 && m[k].paths.arr == m0[k].paths.arr)
              || (k in n && m[k] == n[k])
              || m[k].paths.arr !in taken
  {
  }

  lemma Settles(m: SliceStore, m1: SliceStore, m0: SliceStore, d: ListMap, a: SliceStore, o: SliceStore, n: SliceStore,
                mine: set<array<PathObject>>, taken: set<array<PathObject>>)
    requires AtHome(m, m1, a, {}, taken + mine) && Shrunk(m1, m0) && ComesFrom(d, a, o, n, mine) && mine !! taken
    ensures Settled(m, m0, n, taken)
  {
    hide Separate;
  }

  class SliceCache {
    var store: SliceStore

    constructor ()
      ensures store == map[]
    {
      store := map[];
    }

    ghost predicate Valid()
      reads this, Arrays(store)
    {
      ValidStore(store) && Separate(store) && OrderedStore(Values(store))
    }

    ghost function Shown(): Store
      requires Valid()
      reads this, Arrays(store)
    {
      Values(store)
    }

    lemma ShownFacts()
      requires Valid()
      ensures Shown().Keys == store.Keys && Separate(store) && Shows(store, Shown())
    {
      ShowsValues(store, Shown());
    }

    /** `deletePaths`. If the list to delete is in the very array of the entry, the entry goes altogether. */
    method DeletePaths(key: string, toDelete: Slice<PathObject>)
      requires Valid() && toDelete.Valid() && Ordered(toDelete.Contents())
      modifies this, ArraysAt(store, key)
      ensures Valid() && SameBut(old(Shown()), Shown(), key)
      ensures store - {key} == old(store) - {key}
      ensures key in store ==> key in old(store) && store[key].paths.arr == old(store)[key].paths.arr
      ensures Lookup(Shown(), key) ==
                if key in old(store) && toDelete.arr == old(store)[key].paths.arr && toDelete.len > 0 then None
                else Deleted(old(Lookup(Shown(), key)), old(toDelete.Contents()))
    {
      hide LessThan, StringLess, Ordered, Without, OrderedStore;
      if key in store {
        var obj := store[key];
        OrderedValue(store, key);
        ghost var m, v, p, del := store, Values(store), obj.paths.Contents(), toDelete.Contents();
        assert forall k | k in m && k != key :: v[k] == Value(m[k]) && m[k].paths.arr != obj.paths.arr;
        DeletedIs(v, key, obj.meta, p, del);
        hide Values, SameBut, Lookup, Separate, Deleted;
        var workingCopy := DeleteInPlace(obj.paths, toDelete);
        WithoutOrdered(p, del);
        if workingCopy.len == 0 {
          store := store - {key};
          EntryReplaced(m, key, None, v);
        } else {
          store := store[key := obj.(paths := workingCopy)];
          EntryReplaced(m, key, Some(store[key]), v);
        }
      }
    }

    /** `addNewFrom`. For a new key the object is stored as it is, and from then on shares its array. */
    method AddNewFrom(key: string, obj: SliceObject)
      requires Valid() && obj.paths.Valid() && Ordered(obj.paths.Contents()) && obj.paths.arr !in Arrays(store)
      modifies this, ArraysAt(store, key)
      ensures Valid() && SameBut(old(Shown()), Shown(), key)
      ensures key in store && store - {key} == old(store) - {key}
      ensures if key in old(store) then store[key].paths.arr == old(store)[key].paths.arr || fresh(store[key].paths.arr)
              else store[key] == obj
      ensures key in old(store) && old(store)[key].paths.Full() ==>
                && old(store)[key].paths.Contents() == old(store[key].paths.Contents())
                && (store[key].paths == old(store)[key].paths || fresh(store[key].paths.arr))
      ensures Lookup(Shown(), key) == Some(Added(old(Lookup(Shown(), key)), old(Value(obj))))
    {
      hide LessThan, StringLess, Ordered, Merged, OrderedStore;
      ghost var m, v := store, Values(store);
      assert v.Keys == m.Keys && forall k | k in m && k != key :: v[k] == Value(m[k]);
      if key !in store {
        store := store[key := obj];
        EntryReplaced(m, key, Some(obj), v);
      } else {
        hide SameBut, Lookup;
        AddToExisting(key, obj);
      }
    }

    /** The rest of `addNewFrom`. */
    method AddToExisting(key: string, obj: SliceObject)
      requires Valid() && obj.paths.Valid() && Ordered(obj.paths.Contents()) && obj.paths.arr !in Arrays(store)
      requires key in store
      modifies this, store[key].paths.arr
      ensures Valid() && SameBut(old(Shown()), Shown(), key)
      ensures key in store && store - {key} == old(store) - {key}
      ensures store[key].paths.arr == old(store)[key].paths.arr || fresh(store[key].paths.arr)
      ensures old(store)[key].paths.Full() ==>
                && old(store)[key].paths.Contents() == old(store[key].paths.Contents())
                && (store[key].paths == old(store)[key].paths || fresh(store[key].paths.arr))
      ensures Lookup(Shown(), key) == Some(Added(old(Lookup(Shown(), key)), old(Value(obj))))
    {
      hide LessThan, StringLess, Ordered, Merged, OrderedStore;
      ghost var m, v := store, Values(store);
      assert v.Keys == m.Keys && forall k | k in m && k != key :: v[k] == Value(m[k]);
      var existing := store[key];
      OrderedValue(store, key);
      assert forall k | k in m && k != key :: m[k].paths.arr != existing.paths.arr;
      ghost var e, a := existing.paths.Contents(), obj.paths.Contents();
      assert Lookup(v, key) == Some(CacheObject(existing.meta, e));
      hide Values, SameBut, Lookup, Separate, Fits;
      var paths := AddInPlace(existing.paths, obj.paths);
      ViewOrdered(e, a);
      store := store[key := existing.(paths := paths)];
      EntryReplaced(m, key, Some(store[key]), v);
    }

    /** `calcDiff`. */
    static method CalcDiff(o: SliceCache, n: SliceCache, ghost taken: set<array<PathObject>>)
      returns (toDelete: ListMap, toAdd: SliceStore, ghost dels: map<string, seq<PathObject>>, ghost adds: Store,
               ghost mine: set<array<PathObject>>)
      requires o.Valid() && n.Valid() && Arrays(n.store) <= taken
      ensures ListsShow(toDelete, dels) && AreDeletes(dels, old(o.Shown()), old(n.Shown()), {})
      ensures Shows(toAdd, adds) && AreAdds(adds, old(o.Shown()), old(n.Shown()),
                                            old(o.Shown()).Keys + old(n.Shown()).Keys)
      ensures ComesFrom(toDelete, toAdd, o.store, n.store, mine) && mine !! taken
    {
      ghost var vo, vn := o.Shown(), n.Shown();
      ShowsValues(o.store, vo);
      ShowsValues(n.store, vn);
      hide LessThan, StringLess, Ordered, Minus, AreDeletes, AreAdds, Values, ComesFrom;
      toDelete, toAdd, dels, adds, mine := DiffOldKeys(o, n, vo, vn, taken);
      var shared := toAdd;
      toAdd := AddNewKeys(o, n, shared);
      NewKeysAdded(adds, vo, vn);
      NewKeysShown(shared, adds, o.store, vo, n.store, vn);
      NewKeysComeFrom(toDelete, shared, o.store, n.store, mine);
      adds := adds + (vn - vo.Keys);
    }

    /** It writes to no list that is there. */
    static method CalcBeside(o: SliceCache, n: SliceCache, ghost taken: set<array<PathObject>>, ghost full: ListMap,
                             ghost kept: map<string, seq<PathObject>>)
      returns (toDelete: ListMap, toAdd: SliceStore, ghost dels: map<string, seq<PathObject>>, ghost adds: Store,
               ghost mine: set<array<PathObject>>)
      requires o.Valid() && n.Valid() && Arrays(n.store) <= taken && ListsShow(full, kept)
      ensures ListsShow(toDelete, dels) && AreDeletes(dels, old(o.Shown()), old(n.Shown()), {})
      ensures Shows(toAdd, adds) && AreAdds(adds, old(o.Shown()), old(n.Shown()),
                                            old(o.Shown()).Keys + old(n.Shown()).Keys)
      ensures ComesFrom(toDelete, toAdd, o.store, n.store, mine) && mine !! taken && ListsShow(full, kept)
    {
      hide Shows, AreDeletes, AreAdds, ComesFrom, SliceCache.Valid, SliceCache.Shown, Arrays;
      toDelete, toAdd, dels, adds, mine := CalcDiff(o, n, taken);
    }

    /** The first loop of `calcDiff`. */
    static method DiffOldKeys(o: SliceCache, n: SliceCache, ghost vo: Store, ghost vn: Store,
                              ghost taken: set<array<PathObject>>)
      returns (toDelete: ListMap, toAdd: SliceStore, ghost dels: map<string, seq<PathObject>>, ghost adds: Store,
               ghost mine: set<array<PathObject>>)
      requires Shows(o.store, vo) && Shows(n.store, vn) && OrderedStore(vo) && OrderedStore(vn)
      ensures Diffing(toDelete, dels, toAdd, adds, o.store, vo, n.store, vn, {}, o.store.Keys, mine) && mine !! taken
    {
      var oldKeys := o.store.Keys;
      ghost var visited := {};
      toDelete, toAdd, dels, adds, mine := map[], map[], map[], map[], {};
      DiffingStart(o.store, vo, n.store, vn);
      OrderedShown(o.store, vo);
      OrderedShown(n.store, vn);
      hide LessThan, StringLess, Ordered, Minus, Lookup, AreDeletes, AreAdds, Values, ComesFrom, OrderedStore, Diffing,
        ListsShow;
      while oldKeys != {}
        invariant oldKeys <= o.store.Keys
        invariant Diffing(toDelete, dels, toAdd, adds, o.store, vo, n.store, vn, oldKeys, visited, mine)
                  && mine !! taken
        decreases |oldKeys|
      {
        var oldKey :| oldKey in oldKeys;
        if oldKey !in n.store {
          DiffingGone(toDelete, dels, toAdd, adds, o.store, vo, n.store, vn, oldKeys, visited, mine, oldKey);
          toDelete, dels := toDelete[oldKey := o.store[oldKey].paths], dels[oldKey := vo[oldKey].paths];
        } else {
          var del, obj := DiffCommon(o, n, oldKey, taken, toDelete, dels, toAdd, adds, vo, vn, oldKeys, visited, mine);
          mine := mine + {del.arr, obj.paths.arr};
          toDelete, dels := toDelete[oldKey := del], dels[oldKey := del.Contents()];
          toAdd, adds := toAdd[oldKey := obj], adds[oldKey := Value(obj)];
        }
        oldKeys, visited := oldKeys - {oldKey}, visited + {oldKey};
      }
      AllVisited(toDelete, dels, toAdd, adds, o.store, vo, n.store, vn, visited, mine);
    }

    /** The second loop of `calcDiff`. */
    static method AddNewKeys(o: SliceCache, n: SliceCache, shared: SliceStore) returns (toAdd: SliceStore)
      ensures toAdd == shared + (n.store - o.store.Keys)
    {
      toAdd := shared;
      var newKeys := n.store.Keys;
      NoneYet(shared, n.store, o.store.Keys);
      while newKeys != {}
        invariant newKeys <= n.store.Keys
        invariant toAdd == shared + (n.store - (o.store.Keys + newKeys))
        decreases |newKeys|
      {
        var newKey :| newKey in newKeys;
        OneMoreNew(shared, n.store, o.store.Keys, newKeys, newKey);
        if newKey !in o.store {
          toAdd := toAdd[newKey := n.store[newKey]];
        }
        newKeys := newKeys - {newKey};
      }
      NoneLeft(shared, n.store, o.store.Keys);
    }

    /** The first loop of `ApplyDiff`. */
    method DeleteAll(toDelete: ListMap, ghost dels: map<string, seq<PathObject>>)
      requires Valid() && ListsShow(toDelete, dels) && OrderedLists(dels) && DeletesWhole(toDelete, store)
      modifies this, ArraysOf(store, toDelete.Keys)
      ensures Valid() && Shrunk(store, old(store)) && Untouched(store, old(store), toDelete.Keys)
      ensures DeletedBut(Shown(), old(Shown()), dels, {})
    {
      hide Valid, Shown, Separate, Values, ValidStore, Shrunk, Untouched, KeysShow, ListsShow;
      hide LessThan, StringLess, Ordered, Deleted, OrderedStore, Deleting, DeletedBut, DeletesWhole, SameBut, Lookup;
      ghost var m0, v0 := store, Shown();
      var keys := toDelete.Keys;
      KeysStart(toDelete, dels);
      DeletingStart(m0, v0, toDelete, dels);
      while keys != {}
        invariant keys <= toDelete.Keys
        invariant Valid() && Deleting(store, Shown(), m0, v0, toDelete, dels, keys)
        invariant KeysShow(toDelete, dels, keys)
        decreases |keys|
      {
        var key :| key in keys;
        OtherListsApart(store, Shown(), m0, v0, toDelete, dels, keys, key);
        DeleteKey(key, toDelete, dels, m0, v0, keys);
        keys := keys - {key};
      }
      DeletingEnd(store, Shown(), m0, v0, toDelete, dels);
    }

    method DeleteKey(key: string, toDelete: ListMap, ghost dels: map<string, seq<PathObject>>, ghost m0: SliceStore,
                     ghost v0: Store, ghost keys: set<string>)
      requires Valid() && Deleting(store, Shown(), m0, v0, toDelete, dels, keys) && OrderedLists(dels)
      requires key in keys && keys <= toDelete.Keys && KeysShow(toDelete, dels, keys)
      modifies this, ArraysAt(store, key)
      ensures Valid() && Deleting(store, Shown(), m0, v0, toDelete, dels, keys - {key})
      ensures KeysShow(toDelete, dels, keys - {key})
    {
      hide LessThan, StringLess, Ordered, Deleted, OrderedStore, Deleting, DeletedBut, DeletesWhole, SameBut, Lookup,
        Valid, Shown, Separate, Values, ValidStore, Shrunk, Untouched;
      ghost var m, v := store, Shown();
      ShownFacts();
      SharedIsWhole(m, v, m0, v0, toDelete, dels, keys, key);
      OtherListsApart(m, v, m0, v0, toDelete, dels, keys, key);
      DeletePaths(key, toDelete[key]);
      DeletingStep(m, v, store, Shown(), m0, v0, toDelete, dels, keys, key);
    }

    /** The second loop of `ApplyDiff`. */
    method AddAll(toAdd: SliceStore, ghost adds: Store, ghost taken: set<array<PathObject>>, ghost full: ListMap,
                  ghost kept: map<string, seq<PathObject>>)
      requires FullLists(full, store) && ListsShow(full, kept)
      requires Valid() && Shows(toAdd, adds) && OrderedStore(adds) && Separate(toAdd)
      requires Arrays(toAdd) !! Arrays(store) && Arrays(toAdd) + Arrays(store) <= taken
      modifies this, ArraysOf(store, toAdd.Keys)
      ensures Valid() && AtHome(store, old(store), toAdd, {}, taken) && Untouched(store, old(store), toAdd.Keys)
      ensures AddedOnly(Shown(), old(Shown()), adds, {})
      ensures ListsShow(full, kept) && StayFull(store, full, taken)
    {
      hide Valid, Shown, Separate, Values, ValidStore, Shrunk, Untouched, ObjectsShow, Shows;
      hide LessThan, StringLess, Ordered, Added, OrderedStore, Adding, AddedOnly, AtHome, SameBut, Lookup, FullLists,
        StayFull;
      ghost var m0, v0 := store, Shown();
      var keys := toAdd.Keys;
      ShownFacts();
      ObjectsStart(toAdd, adds);
      AddingStart(m0, v0, toAdd, adds, taken);
      StayFullStart(m0, full, taken);
      while keys != {}
        invariant keys <= toAdd.Keys
        invariant Valid() && Adding(store, Shown(), m0, v0, toAdd, adds, keys, taken)
        invariant ObjectsShow(toAdd, adds, keys)
        invariant ListsShow(full, kept) && StayFull(store, full, taken)
        decreases |keys|
      {
        var key :| key in keys;
        AddingApart(store, Shown(), m0, v0, toAdd, adds, keys, taken, key);
        AddKey(key, toAdd, adds, m0, v0, keys, taken, full, kept);
        keys := keys - {key};
      }
      AddingEnd(store, Shown(), m0, v0, toAdd, adds, taken);
    }

    method AddKey(key: string, toAdd: SliceStore, ghost adds: Store, ghost m0: SliceStore, ghost v0: Store,
                  ghost keys: set<string>, ghost taken: set<array<PathObject>>, ghost full: ListMap,
                  ghost kept: map<string, seq<PathObject>>)
      requires Valid() && Adding(store, Shown(), m0, v0, toAdd, adds, keys, taken) && OrderedStore(adds)
      requires key in keys && ObjectsShow(toAdd, adds, keys)
      requires FullLists(full, m0) && Separate(m0) && ListsShow(full, kept) && StayFull(store, full, taken)
      modifies this, ArraysAt(store, key)
      ensures Valid() && Adding(store, Shown(), m0, v0, toAdd, adds, keys - {key}, taken)
      ensures ObjectsShow(toAdd, adds, keys - {key})
      ensures ListsShow(full, kept) && StayFull(store, full, taken)
    {
      hide LessThan, StringLess, Ordered, Added, OrderedStore, Adding, AddedOnly, AtHome, SameBut, Lookup, Valid, Shown,
        Separate, Values, ValidStore, Shrunk, Untouched, StayFull, FullLists;
      ghost var m, v := store, Shown();
      AddingApart(m, v, m0, v0, toAdd, adds, keys, taken, key);
      StillFull(m, v, m0, v0, toAdd, adds, keys, taken, full, key);
      ListsWithout(full, kept, key);
      OrderedEntry(adds, key);
      AddNewFrom(key, toAdd[key]);
      ListsAgain(full, kept, key);
      StayFullStep(m, store, full, taken, key);
      AddingStep(m, v, store, Shown(), m0, v0, toAdd, adds, keys, taken, key);
    }

    /** `ApplyDiff`, while the cache shares with the old cache whole lists only: it does to what is shown just what it
        does to values, and writes only to the arrays of the keys concerned. Afterwards an entry is in the array it was
        in, or is the new cache's own object, or is in a new array. */
    method ApplyDiff(o: SliceCache, n: SliceCache)
      requires Valid() && o.Valid() && n.Valid() && o != this && n != this
      requires WholeOnly(store, o.store) && Arrays(store) !! Arrays(n.store)
      modifies this, ArraysOf(store, o.store.Keys + n.store.Keys)
      ensures Valid() && Shown() == DiffStore(old(Shown()), old(o.Shown()), old(n.Shown()))
      ensures Untouched(store, old(store), o.store.Keys + n.store.Keys)
      ensures forall k | k in store ::
                || (k in old(store) && store[k].paths.arr == old(store)[k].paths.arr)
                || (k in n.store && store[k] == n.store[k])
                || fresh(store[k].paths.arr)
    {
      hide LessThan, StringLess, Ordered, OrderedStore, Separate, WholeOnly, DiffStore, Values, ValidStore, Valid,
        Shown, Settled, Untouched, ArraysOf, StayFull;
      ghost var taken := set x: array<PathObject> | allocated(x) && x.Length >= 0;
      ghost var m0, ns := store, n.store;
      ApplyKnowing(o, n, taken, map[], map[]);
      SettledMeans(store, m0, ns, taken);
    }

    /** The same, with `taken` for the arrays that are in use somewhere, and with some of the full lists that the old
        cache has no part in: nothing is written to their arrays, and an entry that is added to moves to a new one. */
    method ApplyKnowing(o: SliceCache, n: SliceCache, ghost taken: set<array<PathObject>>, ghost full: ListMap,
                        ghost kept: map<string, seq<PathObject>>)
      requires FullLists(full, store) && ListsShow(full, kept) && full.Keys !! o.store.Keys
      requires Valid() && o.Valid() && n.Valid() && o != this && n != this
      requires WholeOnly(store, o.store) && Arrays(store) !! Arrays(n.store) && Arrays(store) + Arrays(n.store) <= taken
      modifies this, ArraysOf(store, o.store.Keys + n.store.Keys)
      ensures Valid() && Shown() == DiffStore(old(Shown()), old(o.Shown()), old(n.Shown()))
      ensures Settled(store, old(store), n.store, taken) && Untouched(store, old(store), o.store.Keys + n.store.Keys)
      ensures ListsShow(full, kept) && StayFull(store, full, taken)
    {
      hide *;
      ghost var m0, v0, vo, vn := store, Shown(), o.Shown(), n.Shown();
      ghost var os, ns := o.store, n.store;
      o.ShownFacts();
      n.ShownFacts();
      var toDelete, toAdd, dels, adds, mine := CalcBeside(o, n, taken, full, kept);
      ReadyToApply(toDelete, toAdd, m0, os, ns, dels, adds, vo, vn, mine, taken);
      ghost var v1, m1 := ApplyLists(toDelete, toAdd, dels, adds, os, ns, mine, taken, full, kept);
      BothLoops(Shown(), v1, v0, vo, vn, dels, adds);
    }

    /** The first loop leaves full lists of other keys alone. */
    method DeleteBeside(toDelete: ListMap, ghost dels: map<string, seq<PathObject>>, ghost full: ListMap,
                        ghost kept: map<string, seq<PathObject>>)
      requires FullLists(full, store) && ListsShow(full, kept) && full.Keys !! toDelete.Keys
      requires Valid() && ListsShow(toDelete, dels) && OrderedLists(dels) && DeletesWhole(toDelete, store)
      modifies this, ArraysOf(store, toDelete.Keys)
      ensures Valid() && Shrunk(store, old(store)) && Untouched(store, old(store), toDelete.Keys)
      ensures DeletedBut(Shown(), old(Shown()), dels, {})
      ensures FullLists(full, store) && ListsShow(full, kept)
    {
      ShownFacts();
      FullApart(full, store, toDelete.Keys);
      hide LessThan, StringLess, Ordered, OrderedStore, Valid, Shown, Deleted, Separate, DeletesWhole, Shrunk,
        Untouched, DeletedBut, FullLists, OrderedLists, Shows;
      ghost var m0 := store;
      DeleteAll(toDelete, dels);
      FullUntouched(full, store, m0, toDelete.Keys);
    }

    /** The two loops of `ApplyDiff`. */
    method ApplyLists(toDelete: ListMap, toAdd: SliceStore, ghost dels: map<string, seq<PathObject>>, ghost adds: Store,
                      ghost o: SliceStore, ghost n: SliceStore, ghost mine: set<array<PathObject>>,
                      ghost taken: set<array<PathObject>>, ghost full: ListMap,
                      ghost kept: map<string, seq<PathObject>>)
      returns (ghost v1: Store, ghost m1: SliceStore)
      requires FullLists(full, store) && ListsShow(full, kept) && full.Keys !! toDelete.Keys
      requires Valid() && ListsShow(toDelete, dels) && OrderedLists(dels) && DeletesWhole(toDelete, store)
      requires Shows(toAdd, adds) && OrderedStore(adds) && Separate(toAdd)
      requires Arrays(toAdd) !! Arrays(store) && Arrays(toAdd) + Arrays(store) <= taken + mine
      requires ComesFrom(toDelete, toAdd, o, n, mine) && mine !! taken
      modifies this, ArraysOf(store, toDelete.Keys + toAdd.Keys)
      ensures Valid() && DeletedBut(v1, old(Shown()), dels, {}) && AddedOnly(Shown(), v1, adds, {})
      ensures Settled(store, old(store), n, taken) && Untouched(store, old(store), toDelete.Keys + toAdd.Keys)
      ensures ListsShow(full, kept) && StayFull(store, full, taken)
    {
      hide LessThan, StringLess, Ordered, OrderedStore, Valid, Shown, Deleted, Added, Separate, DeletesWhole, ComesFrom,
        Shrunk, Untouched, Settled, AtHome, DeletedBut, AddedOnly, FullLists, StayFull, OrderedLists;
      ghost var m0 := store;
      DeleteBeside(toDelete, dels, full, kept);
      m1, v1 := store, Shown();
      WithinArrays(m1, m0, toDelete.Keys, toAdd.Keys);
      AddAll(toAdd, adds, taken + mine, full, kept);
      StayFullFewer(store, full, taken + mine, taken);
      UntouchedTwice(store, m1, m0, toDelete.Keys, toAdd.Keys);
      Settles(store, m1, m0, toDelete, toAdd, o, n, mine, taken);
    }
  }
}
