/** Whole runs of refreshes on caches that share arrays as the code lets them. If, wherever two sources ever find one
    key, their lists for it are full and have no path in common, then sharing never does any harm: after every run the
    global cache shows what it would show if lists were values, which is the union of what the sources found last. A
    refresh is one step here, its `ApplyDiff`; `Refreshes` shows that every run of the system is such a sequence. */
module SharedRuns {
  import opened Paths
  import opened Caches
  import opened RefreshSystem
  import opened Refreshes
  import opened SharedCaches

  // ---------- what is shown

  /** A store has no path in common with those of other sources than `i`, under one key. */
  ghost predicate ApartFrom(n: Store, vs: seq<Store>, i: nat) {
    forall j, k | 0 <= j < |vs| && j != i :: PathsAt(vs[j], k) !! PathsAt(n, k)
  }

  /** The global cache is the union, in order, of stores that have no path in common. */
  ghost predicate Mirrors(g: Store, vs: seq<Store>) {
    && StrictStore(g) && IsSetUnion(g, vs)
    && forall i | 0 <= i < |vs| :: StrictStore(vs[i]) && ApartFrom(vs[i], vs, i)
  }

  lemma NoneOfOthers(n: Store, vs: seq<Store>, i: nat, k: string)
    requires i < |vs| && ApartFrom(n, vs, i)
    ensures OthersAt(vs, i, k) !! PathsAt(n, k)
  {
    hide PathsAt;
  }

  lemma MirrorsStep(g: Store, vs: seq<Store>, i: nat, n: Store)
    requires Mirrors(g, vs) && i < |vs| && StrictStore(n) && ApartFrom(n, vs, i)
    ensures Mirrors(DiffStore(g, vs[i], n), vs[i := n])
  {
    hide OthersAt, PathsAt, DiffStore, StrictStore, IsSetUnion;
    forall k
      ensures OthersAt(vs, i, k) !! PathsAt(vs[i], k) && OthersAt(vs, i, k) !! PathsAt(n, k)
    {
      NoneOfOthers(vs[i], vs, i, k);
      NoneOfOthers(n, vs, i, k);
    }
    ApplyApart(g, vs, i, n);
    var vs' := vs[i := n];
    forall j | 0 <= j < |vs'|
      ensures ApartFrom(vs'[j], vs', j)
    {
      assert ApartFrom(vs[j], vs, j);
    }
  }

  // ---------- what is shared

  /** The stores of the sources have no array in common, and share with the global one whole lists. */
  ghost predicate SharesWhole(g: SliceStore, hs: seq<SliceStore>) {
    && (forall i | 0 <= i < |hs| :: WholeOnly(g, hs[i]) && Separate(hs[i]))
    && (forall i, j | 0 <= i < |hs| && 0 <= j < |hs| && i != j :: Arrays(hs[i]) !! Arrays(hs[j]))
  }

  /** What a source now finds is in new arrays, and where it finds a key of another source, that one's list is full. */
  ghost predicate NewTo(n: SliceStore, g: SliceStore, hs: seq<SliceStore>, i: nat) {
    && Separate(n) && Arrays(n) !! Arrays(g)
    && (forall j | 0 <= j < |hs| && j != i :: Arrays(hs[j]) !! Arrays(n))
    && (forall j, k | 0 <= j < |hs| && j != i && k in hs[j] && k in n :: hs[j][k].paths.Full())
  }

  /** The full lists of a store under other keys than these. */
  ghost function FullOutside(m: SliceStore, keys: set<string>): (f: ListMap)
    ensures FullLists(f, m) && f.Keys !! keys
    ensures forall k | k in m && k !in keys && m[k].paths.Full() :: k in f
  {
    map k | k in m && k !in keys && m[k].paths.Full() :: m[k].paths
  }

  ghost function PathsOfLists(f: ListMap, v: Store): (r: map<string, seq<PathObject>>)
    requires f.Keys <= v.Keys
    ensures r.Keys == f.Keys && forall k | k in r :: r[k] == v[k].paths
  {
    map k | k in f :: v[k].paths
  }

  lemma FullListsShow(f: ListMap, m: SliceStore, v: Store)
    requires FullLists(f, m) && Shows(m, v)
    ensures f.Keys <= v.Keys && ListsShow(f, PathsOfLists(f, v))
  {
  }

  /** The keys under which a store holds one of these very lists. */
  ghost function SharedKeys(h: SliceStore, f: ListMap): set<string> {
    set k | k in h && k in f && f[k] == h[k].paths
  }

  ghost function Beside(hs: seq<SliceStore>, f: ListMap): (r: seq<SliceStore>)
    ensures |r| == |hs| && forall j | 0 <= j < |hs| :: r[j] == hs[j] - SharedKeys(hs[j], f)
  {
    seq(|hs|, j requires 0 <= j < |hs| => hs[j] - SharedKeys(hs[j], f))
  }

  ghost function BesideShown(vs: seq<Store>, hs: seq<SliceStore>, f: ListMap): (r: seq<Store>)
    requires |vs| == |hs|
    ensures |r| == |vs| && forall j | 0 <= j < |vs| :: r[j] == vs[j] - SharedKeys(hs[j], f)
  {
    seq(|vs|, j requires 0 <= j < |vs| => vs[j] - SharedKeys(hs[j], f))
  }

  /** What is recorded for full lists is what the stores that hold them show. */
  ghost predicate Recorded(h: SliceStore, v: Store, f: ListMap, kept: map<string, seq<PathObject>>) {
    && h.Keys == v.Keys && f.Keys == kept.Keys
    && forall k | k in SharedKeys(h, f) :: v[k] == CacheObject(h[k].meta, kept[k])
  }

  lemma TakeApart(h: SliceStore, v: Store, f: ListMap, kept: map<string, seq<PathObject>>)
    requires Shows(h, v) && ListsShow(f, kept)
    ensures Shows(h - SharedKeys(h, f), v - SharedKeys(h, f)) && Recorded(h, v, f, kept)
  {
  }

  lemma PutTogether(h: SliceStore, v: Store, f: ListMap, kept: map<string, seq<PathObject>>)
    requires Shows(h - SharedKeys(h, f), v - SharedKeys(h, f)) && Recorded(h, v, f, kept) && ListsShow(f, kept)
    ensures Shows(h, v)
  {
    forall k | k in h
      ensures h[k].paths.Valid() && Value(h[k]) == v[k]
    {
      if k !in SharedKeys(h, f) {
        assert (h - SharedKeys(h, f))[k] == h[k] && (v - SharedKeys(h, f))[k] == v[k];
      }
    }
  }

  /** If the global cache shows another source's whole list, then the source has no list of its own for the key. */
  lemma NotItsOwn(g: SliceStore, gv: Store, hs: seq<SliceStore>, vs: seq<Store>, i: nat, j: nat, k: string)
    requires AllShow(hs, vs) && Shows(g, gv) && Mirrors(gv, vs) && i < |hs| && j < |hs| && i != j
    requires k in g && k in hs[j] && g[k].paths == hs[j][k].paths
    ensures k !in hs[i]
  {
    hide UnionAt, StrictlyOrdered;
    assert Shows(hs[i], vs[i]) && Shows(hs[j], vs[j]);
    assert PathsAt(gv, k) == PathsAt(vs[j], k);
    assert ApartFrom(vs[i], vs, i);
    if k in hs[i] {
      var p := vs[i][k].paths[0];
      InUnion(vs, i, k, p);
    }
  }

  lemma InUnion(vs: seq<Store>, i: nat, k: string, p: PathObject)
    requires i < |vs| && p in PathsAt(vs[i], k)
    ensures p in UnionAt(vs, k)
  {
    hide PathsAt;
  }

  /** But for full lists, the arrays that a refresh of one source writes to are in no other source's store. */
  lemma WritesApart(g: SliceStore, gv: Store, hs: seq<SliceStore>, vs: seq<Store>, i: nat, n: SliceStore, j: nat)
    requires AllShow(hs, vs) && Shows(g, gv) && Mirrors(gv, vs) && SharesWhole(g, hs)
    requires i < |hs| && j < |hs| && i != j && NewTo(n, g, hs, i)
    ensures ArraysOf(g, hs[i].Keys + n.Keys) !! Arrays(hs[j] - SharedKeys(hs[j], FullOutside(g, hs[i].Keys)))
  {
    hide Separate, Shows, Mirrors;
    var f := FullOutside(g, hs[i].Keys);
    assert WholeOnly(g, hs[j]);
    forall k, l | k in g && k in hs[i].Keys + n.Keys && l in hs[j] && g[k].paths.arr == hs[j][l].paths.arr
      ensures l in SharedKeys(hs[j], f)
    {
      assert k == l && g[k].paths == hs[j][k].paths;
      NotItsOwn(g, gv, hs, vs, i, j, k);
      assert k in n && g[k].paths.Full();
    }
  }

  lemma WritesWithin(g: SliceStore, keys: set<string>, h: SliceStore, without: set<string>)
    requires Arrays(h) !! Arrays(g)
    ensures ArraysOf(g, keys) !! Arrays(h - without) && ArraysOf(g, keys) !! Arrays(h)
  {
  }

  /** A store that shared whole lists still does, although full ones of them may have moved. */
  lemma StillWhole(g': SliceStore, g: SliceStore, o: SliceStore, n: SliceStore, h: SliceStore, f: ListMap,
                   taken: set<array<PathObject>>)
    requires Settled(g', g, n, taken) && Untouched(g', g, o.Keys + n.Keys) && StayFull(g', f, taken)
    requires WholeOnly(g, h) && Arrays(h) !! Arrays(n) && Arrays(h) <= taken
    requires ArraysOf(g, o.Keys + n.Keys) !! Arrays(h - SharedKeys(h, f))
    ensures WholeOnly(g', h)
  {
    assert forall k | k in h :: h[k].paths.arr in Arrays(h);
    assert forall k | k in n :: n[k].paths.arr in Arrays(n);
    forall j, k | j in g' && k in h && g'[j].paths.arr == h[k].paths.arr
      ensures j == k && g'[j].paths == h[k].paths
    {
      assert j in g && g[j].paths.arr == h[k].paths.arr;
      assert j == k && g[k].paths == h[k].paths;
      if k in o.Keys + n.Keys {
        assert k !in SharedKeys(h, f) ==> h[k].paths.arr in Arrays(h - SharedKeys(h, f)) by {
          assert k !in SharedKeys(h, f) ==> k in h - SharedKeys(h, f);
        }
        assert g[k].paths.arr in ArraysOf(g, o.Keys + n.Keys);
      } else {
        assert k in g' - (o.Keys + n.Keys) && (g' - (o.Keys + n.Keys))[k] == g'[k];
        assert (g - (o.Keys + n.Keys))[k] == g[k];
      }
    }
  }

  lemma WholeWithNew(g': SliceStore, g: SliceStore, n: SliceStore, taken: set<array<PathObject>>)
    requires Settled(g', g, n, taken) && Separate(n) && Arrays(n) !! Arrays(g) && Arrays(n) <= taken
    ensures WholeOnly(g', n)
  {
    assert forall k | k in n :: n[k].paths.arr in Arrays(n);
    assert forall k | k in g :: g[k].paths.arr in Arrays(g);
  }

  lemma SharesWholeStep(g': SliceStore, g: SliceStore, hs: seq<SliceStore>, i: nat, n: SliceStore, f: ListMap,
                        taken: set<array<PathObject>>)
    requires SharesWhole(g, hs) && i < |hs| && NewTo(n, g, hs, i)
    requires Settled(g', g, n, taken) && Untouched(g', g, hs[i].Keys + n.Keys) && StayFull(g', f, taken)
    requires Arrays(n) <= taken && forall j | 0 <= j < |hs| :: Arrays(hs[j]) <= taken
    requires forall j | 0 <= j < |hs| && j != i ::
               ArraysOf(g, hs[i].Keys + n.Keys) !! Arrays(hs[j] - SharedKeys(hs[j], f))
    ensures SharesWhole(g', hs[i := n])
  {
    hide Arrays, Separate, WholeOnly, Settled, Untouched, StayFull, SharedKeys, ArraysOf;
    forall j | 0 <= j < |hs| && j != i
      ensures WholeOnly(g', hs[j])
    {
      StillWhole(g', g, hs[i], n, hs[j], f, taken);
    }
    WholeWithNew(g', g, n, taken);
  }

  // ---------- one refresh

  lemma ShownIsValid(c: SliceCache, v: Store)
    requires Shows(c.store, v) && Separate(c.store) && StrictStore(v)
    ensures c.Valid() && c.Shown() == v
  {
    ShowsValues(c.store, v);
    forall k | k in v
      ensures Ordered(v[k].paths)
    {
      StrictIsOrdered(v[k].paths);
    }
  }

  /** What all sources' stores show. */
  ghost predicate AllShow(hs: seq<SliceStore>, vs: seq<Store>)
    reads set i, x | 0 <= i < |hs| && x in Arrays(hs[i]) :: x
  {
    |hs| == |vs| && forall i | 0 <= i < |hs| :: Shows(hs[i], vs[i])
  }

  /** `ApplyDiff`, and that it does not disturb stores in other arrays than it writes to. */
  method ApplyBeside(global: SliceCache, held: SliceCache, found: SliceCache, ghost keep: seq<SliceStore>,
                     ghost keepShown: seq<Store>, ghost full: ListMap, ghost kept: map<string, seq<PathObject>>,
                     ghost outer: set<array<PathObject>>)
    requires global.Valid() && held.Valid() && found.Valid() && held != global && found != global
    requires WholeOnly(global.store, held.store) && Arrays(global.store) !! Arrays(found.store)
    requires FullLists(full, global.store) && ListsShow(full, kept) && full.Keys !! held.store.Keys
    requires AllShow(keep, keepShown)
    requires forall j | 0 <= j < |keep| :: ArraysOf(global.store, held.store.Keys + found.store.Keys) !! Arrays(keep[j])
    modifies global, ArraysOf(global.store, held.store.Keys + found.store.Keys)
    ensures global.Valid() && global.Shown() == DiffStore(old(global.Shown()), old(held.Shown()), old(found.Shown()))
    ensures Settled(global.store, old(global.store), found.store, outer) && found.store == old(found.store)
    ensures Untouched(global.store, old(global.store), held.store.Keys + found.store.Keys)
    ensures ListsShow(full, kept) && StayFull(global.store, full, outer)
    ensures AllShow(keep, keepShown)
  {
    hide LessThan, StringLess, Ordered, OrderedStore, Separate, WholeOnly, Untouched, DiffStore, Values, ValidStore,
      SliceCache.Valid, SliceCache.Shown, Lookup, DiffEntry, Settled, StayFull, FullLists, ListsShow;
    ghost var taken := set x: array<PathObject> | allocated(x) && x.Length >= 0;
    ghost var m, n := global.store, found.store;
    global.ApplyKnowing(held, found, taken, full, kept);
    SettledFewer(global.store, m, n, taken, outer);
    StayFullFewer(global.store, full, taken, outer);
  }

  lemma SettledFewer(g': SliceStore, g: SliceStore, n: SliceStore, taken: set<array<PathObject>>,
                     outer: set<array<PathObject>>)
    requires Settled(g', g, n, taken) && outer <= taken
    ensures Settled(g', g, n, outer)
  {
  }

  /** `ApplyDiff` of a source's last and new cache. */
  method RefreshOne(global: SliceCache, held: SliceCache, found: SliceCache, i: nat, ghost hs: seq<SliceStore>,
                    ghost vs: seq<Store>, ghost nv: Store, ghost rest: seq<SliceStore>, ghost restShown: seq<Store>,
                    ghost outer: set<array<PathObject>>)
    requires global.Valid() && AllShow(hs, vs) && Mirrors(global.Shown(), vs) && SharesWhole(global.store, hs)
    requires i < |hs| && held.store == hs[i] && held != global && found != global
    requires Shows(found.store, nv) && StrictStore(nv) && NewTo(found.store, global.store, hs, i)
             && ApartFrom(nv, vs, i)
    requires AllShow(rest, restShown) && forall j | 0 <= j < |rest| :: Arrays(rest[j]) !! Arrays(global.store)
    requires Arrays(found.store) <= outer && forall j | 0 <= j < |hs| :: Arrays(hs[j]) <= outer
    modifies global, ArraysOf(global.store, hs[i].Keys + found.store.Keys)
    ensures global.Valid() && Mirrors(global.Shown(), vs[i := nv])
    ensures i < |vs| && global.Shown() == DiffStore(old(global.Shown()), vs[i], nv)
    ensures SharesWhole(global.store, hs[i := found.store]) && AllShow(hs[i := found.store], vs[i := nv])
    ensures Settled(global.store, old(global.store), found.store, outer) && found.store == old(found.store)
    ensures AllShow(rest, restShown)
  {
    assert |hs| == |vs| && |rest| == |restShown|;
    hide *;
    ghost var g, gv, n := global.store, global.Shown(), found.store;
    ghost var full := FullOutside(g, hs[i].Keys);
    global.ShownFacts();
    FullListsShow(full, g, gv);
    ghost var kept := PathsOfLists(full, gv);
    ghost var keep, keepShown := Beside(hs[i := n], full) + rest,
        BesideShown(vs[i := nv], hs[i := n], full) + restShown;
    RefreshReady(global, held, found, i, hs, vs, nv);
    KeepReady(g, gv, i, hs, vs, n, nv, rest, restShown, kept);
    ApplyBeside(global, held, found, keep, keepShown, full, kept, outer);
    AllPutTogether(hs[i := n], vs[i := nv], rest, restShown, full, kept);
    SharesWholeStep(global.store, g, hs, i, n, full, outer);
  }

  lemma RefreshReady(global: SliceCache, held: SliceCache, found: SliceCache, i: nat, hs: seq<SliceStore>,
                     vs: seq<Store>, nv: Store)
    requires global.Valid() && AllShow(hs, vs) && Mirrors(global.Shown(), vs) && SharesWhole(global.store, hs)
    requires i < |hs| && held.store == hs[i]
    requires Shows(found.store, nv) && StrictStore(nv) && NewTo(found.store, global.store, hs, i)
             && ApartFrom(nv, vs, i)
    ensures held.Valid() && held.Shown() == vs[i] && found.Valid() && found.Shown() == nv
    ensures WholeOnly(global.store, held.store) && Arrays(global.store) !! Arrays(found.store)
    ensures Mirrors(DiffStore(global.Shown(), vs[i], nv), vs[i := nv])
  {
    assert Shows(hs[i], vs[i]);
    assert StrictStore(vs[i]) && Separate(hs[i]) && WholeOnly(global.store, hs[i]);
    ShownIsValid(held, vs[i]);
    ShownIsValid(found, nv);
    hide *;
    MirrorsStep(global.Shown(), vs, i, nv);
  }

  lemma AllWritesApart(g: SliceStore, gv: Store, hs: seq<SliceStore>, vs: seq<Store>, i: nat, n: SliceStore)
    requires AllShow(hs, vs) && Shows(g, gv) && Mirrors(gv, vs) && SharesWhole(g, hs)
    requires i < |hs| && NewTo(n, g, hs, i)
    ensures var f, hs' := FullOutside(g, hs[i].Keys), hs[i := n];
            forall j | 0 <= j < |hs'| :: ArraysOf(g, hs[i].Keys + n.Keys) !! Arrays(hs'[j] - SharedKeys(hs'[j], f))
  {
    var f, hs' := FullOutside(g, hs[i].Keys), hs[i := n];
    hide Mirrors, SharesWhole, FullOutside, SharedKeys, AllShow, Shows, Arrays, ArraysOf, Separate;
    forall j | 0 <= j < |hs'|
      ensures ArraysOf(g, hs[i].Keys + n.Keys) !! Arrays(hs'[j] - SharedKeys(hs'[j], f))
    {
      if j == i {
        WritesWithin(g, hs[i].Keys + n.Keys, n, SharedKeys(n, f));
      } else {
        WritesApart(g, gv, hs, vs, i, n, j);
      }
    }
  }

  lemma AllTakenApart(hs: seq<SliceStore>, vs: seq<Store>, f: ListMap, kept: map<string, seq<PathObject>>)
    requires AllShow(hs, vs) && ListsShow(f, kept)
    ensures AllShow(Beside(hs, f), BesideShown(vs, hs, f)) && AllRecorded(hs, vs, f, kept)
  {
    hide Shows, SharedKeys, Recorded, ListsShow;
    forall j | 0 <= j < |hs|
      ensures Shows(hs[j] - SharedKeys(hs[j], f), vs[j] - SharedKeys(hs[j], f)) && Recorded(hs[j], vs[j], f, kept)
    {
      assert Shows(hs[j], vs[j]);
      TakeApart(hs[j], vs[j], f, kept);
    }
  }

  lemma ShowTogether(hs: seq<SliceStore>, vs: seq<Store>, rest: seq<SliceStore>, restShown: seq<Store>)
    requires AllShow(hs, vs) && AllShow(rest, restShown)
    ensures AllShow(hs + rest, vs + restShown)
  {
    hide Shows;
  }

  /** Everything but full lists is in arrays that the refresh does not write to. */
  lemma KeepReady(g: SliceStore, gv: Store, i: nat, hs: seq<SliceStore>, vs: seq<Store>, n: SliceStore, nv: Store,
                  rest: seq<SliceStore>, restShown: seq<Store>, kept: map<string, seq<PathObject>>)
    requires AllShow(hs, vs) && Shows(g, gv) && Mirrors(gv, vs) && SharesWhole(g, hs) && i < |hs|
    requires Shows(n, nv) && NewTo(n, g, hs, i)
    requires AllShow(rest, restShown) && forall j | 0 <= j < |rest| :: Arrays(rest[j]) !! Arrays(g)
    requires ListsShow(FullOutside(g, hs[i].Keys), kept)
    ensures var f, hs', vs' := FullOutside(g, hs[i].Keys), hs[i := n], vs[i := nv];
            && AllShow(Beside(hs', f) + rest, BesideShown(vs', hs', f) + restShown) && AllRecorded(hs', vs', f, kept)
            && (forall j | 0 <= j < |hs'| + |rest| ::
                ArraysOf(g, hs[i].Keys + n.Keys) !! Arrays((Beside(hs', f) + rest)[j]))
            && (forall j | 0 <= j < |hs| && j != i ::
                  ArraysOf(g, hs[i].Keys + n.Keys) !! Arrays(hs[j] - SharedKeys(hs[j], f)))
  {
    var f, hs', vs' := FullOutside(g, hs[i].Keys), hs[i := n], vs[i := nv];
    AllWritesApart(g, gv, hs, vs, i, n);
    hide Mirrors, SharesWhole, FullOutside, SharedKeys, Shows, ListsShow, Arrays, ArraysOf, AllRecorded, NewTo;
    assert AllShow(hs', vs');
    AllTakenApart(hs', vs', f, kept);
    hide AllShow;
    ShowTogether(Beside(hs', f), BesideShown(vs', hs', f), rest, restShown);
    forall j | 0 <= j < |rest|
      ensures ArraysOf(g, hs[i].Keys + n.Keys) !! Arrays(rest[j])
    {
      WritesWithin(g, hs[i].Keys + n.Keys, rest[j], {});
    }
    forall j | 0 <= j < |hs| && j != i
      ensures ArraysOf(g, hs[i].Keys + n.Keys) !! Arrays(hs[j] - SharedKeys(hs[j], f))
    {
      assert hs'[j] == hs[j];
    }
  }

  ghost predicate AllRecorded(hs: seq<SliceStore>, vs: seq<Store>, f: ListMap, kept: map<string, seq<PathObject>>) {
    |hs| == |vs| && forall j | 0 <= j < |hs| :: Recorded(hs[j], vs[j], f, kept)
  }

  lemma AllPutTogether(hs: seq<SliceStore>, vs: seq<Store>, rest: seq<SliceStore>, restShown: seq<Store>, f: ListMap,
                       kept: map<string, seq<PathObject>>)
    requires |hs| == |vs| && |rest| == |restShown|
    requires AllShow(Beside(hs, f) + rest, BesideShown(vs, hs, f) + restShown)
    requires AllRecorded(hs, vs, f, kept) && ListsShow(f, kept)
    ensures AllShow(hs, vs) && AllShow(rest, restShown)
  {
    hide Shows, SharedKeys, Recorded, ListsShow;
    var keep, keepShown := Beside(hs, f) + rest, BesideShown(vs, hs, f) + restShown;
    forall j | 0 <= j < |hs|
      ensures Shows(hs[j], vs[j])
    {
      assert Shows(keep[j], keepShown[j]);
      PutTogether(hs[j], vs[j], f, kept);
    }
    forall j | 0 <= j < |rest|
      ensures Shows(rest[j], restShown[j])
    {
      assert Shows(keep[|hs|+j], keepShown[|hs|+j]);
    }
  }

  // ---------- a whole run

  ghost function Seen(stores: seq<SliceStore>, t: nat): set<array<PathObject>>
    requires t <= |stores|
  {
    set s, x | 0 <= s < t && x in Arrays(stores[s]) :: x
  }

  /** No two populates use one array, and where two sources ever find one key, their lists for it are full and have no
      path in common. */
  ghost predicate Compatible(from: seq<nat>, stores: seq<SliceStore>, shown: seq<Store>) {
    && |stores| == |from| == |shown|
    && (forall t | 0 <= t < |from| :: Separate(stores[t]) && stores[t].Keys == shown[t].Keys)
    && (forall t, u | 0 <= t < |from| && 0 <= u < |from| && t != u :: Arrays(stores[t]) !! Arrays(stores[u]))
    && (forall t, u | 0 <= t < |from| && 0 <= u < |from| && from[t] != from[u] ::
        Meet(stores[t], shown[t], stores[u], shown[u]))
  }

  ghost predicate Meet(m: SliceStore, v: Store, m': SliceStore, v': Store) {
    forall k | k in m && k in m' :: m[k].paths.Full() && m'[k].paths.Full() && PathsAt(v, k) !! PathsAt(v', k)
  }

  /** The refreshes of a run of the system are such a sequence if names differ and lists are full where two sources
      meet; what `Run` ends with is then what the system has, by `IsHistory`. */
  lemma HistoryCompatible(y: System, from: seq<nat>, stores: seq<SliceStore>, shown: seq<Store>,
                          meta: string -> Metadata)
    requires IsHistory(y, from, shown, meta) && NamesDistinct(y) && |stores| == |from|
    requires forall t | 0 <= t < |from| :: Separate(stores[t]) && stores[t].Keys == shown[t].Keys
    requires forall t, u | 0 <= t < |from| && 0 <= u < |from| && t != u :: Arrays(stores[t]) !! Arrays(stores[u])
    requires forall t, u, k | 0 <= t < |from| && 0 <= u < |from| && from[t] != from[u] && k in stores[t]
             && k in stores[u] ::
               stores[t][k].paths.Full() && stores[u][k].paths.Full()
    ensures Compatible(from, stores, shown) && OfSources(from, |y.applied|)
    ensures y.global == Refreshed(|y.applied|, from, shown) && forall t | 0 <= t < |from| :: StrictStore(shown[t])
  {
    hide Separate, Arrays, LastFound, Refreshed, StrictStore, PathsAt, NamesDistinct;
    forall t | 0 <= t < |from|
      ensures StrictStore(shown[t])
    {
      assert FoundBy(shown[t], y.sched.sources[from[t]].name, meta);
    }
    hide FoundBy, IsHistory;
    forall t, u | 0 <= t < |from| && 0 <= u < |from| && from[t] != from[u]
      ensures Meet(stores[t], shown[t], stores[u], shown[u])
    {
      forall k | k in stores[t] && k in stores[u]
        ensures PathsAt(shown[t], k) !! PathsAt(shown[u], k)
      {
        NamesApart(y, from, shown, meta, t, u, k);
      }
    }
  }

  /** The store of a source: nothing yet, or what one of the first `t` populates, its own, found. */
  ghost predicate TookOne(h: SliceStore, v: Store, j: nat, from: seq<nat>, stores: seq<SliceStore>, shown: seq<Store>,
                          t: nat)
    requires t <= |from| == |stores| == |shown|
  {
    (h == map[] && v == map[]) || exists s :: 0 <= s < t && from[s] == j && h == stores[s] && v == shown[s]
  }

  ghost predicate Took(hs: seq<SliceStore>, vs: seq<Store>, from: seq<nat>, stores: seq<SliceStore>, shown: seq<Store>,
                       t: nat) {
    && t <= |from| == |stores| == |shown| && |hs| == |vs|
    && forall j | 0 <= j < |hs| :: TookOne(hs[j], vs[j], j, from, stores, shown, t)
  }

  lemma TookStep(hs: seq<SliceStore>, vs: seq<Store>, from: seq<nat>, stores: seq<SliceStore>, shown: seq<Store>,
                 t: nat)
    requires Took(hs, vs, from, stores, shown, t) && t < |from| && from[t] < |hs|
    ensures Took(hs[from[t] := stores[t]], vs[from[t] := shown[t]], from, stores, shown, t + 1)
  {
    var hs', vs' := hs[from[t] := stores[t]], vs[from[t] := shown[t]];
    forall j | 0 <= j < |hs'|
      ensures TookOne(hs'[j], vs'[j], j, from, stores, shown, t + 1)
    {
      assert TookOne(hs[j], vs[j], j, from, stores, shown, t);
    }
  }

  lemma NextIsNewTo(h: SliceStore, v: Store, j: nat, from: seq<nat>, stores: seq<SliceStore>, shown: seq<Store>, t: nat)
    requires Compatible(from, stores, shown) && t < |from| && TookOne(h, v, j, from, stores, shown, t)
    ensures Arrays(h) <= Seen(stores, t) && Arrays(h) !! Arrays(stores[t])
    ensures j != from[t] ==> forall k :: PathsAt(v, k) !! PathsAt(shown[t], k)
    ensures j != from[t] ==> forall k | k in h && k in stores[t] :: h[k].paths.Full()
  {
    hide Separate;
    if h == map[] && v == map[] {
      assert Arrays(h) == {};
    } else {
      var s :| 0 <= s < t && from[s] == j && h == stores[s] && v == shown[s];
      if j != from[t] {
        assert Meet(stores[s], shown[s], stores[t], shown[t]);
      }
    }
  }

  lemma NextIsNew(hs: seq<SliceStore>, vs: seq<Store>, g: SliceStore, from: seq<nat>, stores: seq<SliceStore>,
                  shown: seq<Store>, t: nat)
    requires Took(hs, vs, from, stores, shown, t) && Compatible(from, stores, shown) && t < |from|
    requires Arrays(stores[t]) !! Arrays(g)
    ensures NewTo(stores[t], g, hs, from[t]) && ApartFrom(shown[t], vs, from[t])
    ensures forall j | 0 <= j < |hs| :: Arrays(hs[j]) <= Seen(stores, t)
  {
    assert Separate(stores[t]);
    hide Separate, Compatible, Arrays, Seen, PathsAt;
    forall j | 0 <= j < |hs|
      ensures Arrays(hs[j]) <= Seen(stores, t) && Arrays(hs[j]) !! Arrays(stores[t])
      ensures j != from[t] ==> forall k :: PathsAt(vs[j], k) !! PathsAt(shown[t], k)
      ensures j != from[t] ==> forall k | k in hs[j] && k in stores[t] :: hs[j][k].paths.Full()
    {
      assert TookOne(hs[j], vs[j], j, from, stores, shown, t);
      NextIsNewTo(hs[j], vs[j], j, from, stores, shown, t);
    }
  }

  /** Where a run is after `t` refreshes, but for what is shown. */
  ghost predicate Progress(g: SliceStore, gv: Store, hs: seq<SliceStore>, vs: seq<Store>, from: seq<nat>,
                           stores: seq<SliceStore>, shown: seq<Store>, t: nat, outer: set<array<PathObject>>) {
    && Compatible(from, stores, shown) && OfSources(from, |hs|) && Took(hs, vs, from, stores, shown, t)
    && (forall u | 0 <= u < |stores| :: Arrays(stores[u]) <= outer && StrictStore(shown[u]))
    && vs == LastFound(|hs|, from[..t], shown[..t]) && gv == Refreshed(|hs|, from[..t], shown[..t])
    && Mirrors(gv, vs) && SharesWhole(g, hs) && Arrays(g) * outer <= Seen(stores, t)
  }

  /** The next store is new to the others, and nothing that is still to come shares an array with the global cache. */
  lemma NextFacts(g: SliceStore, gv: Store, hs: seq<SliceStore>, vs: seq<Store>, from: seq<nat>,
                  stores: seq<SliceStore>, shown: seq<Store>, t: nat, outer: set<array<PathObject>>)
    requires Progress(g, gv, hs, vs, from, stores, shown, t, outer) && t < |from|
    ensures NewTo(stores[t], g, hs, from[t]) && ApartFrom(shown[t], vs, from[t])
    ensures var rest := stores[t+1..]; forall j | 0 <= j < |rest| :: Arrays(rest[j]) !! Arrays(g)
    ensures Arrays(stores[t]) <= outer && StrictStore(shown[t]) && forall j | 0 <= j < |hs| :: Arrays(hs[j]) <= outer
    ensures from[t] < |hs| == |vs|
  {
    hide LastFound, Refreshed, StrictStore, Mirrors, SharesWhole, Took;
    forall u | t <= u < |stores|
      ensures Arrays(stores[u]) !! Arrays(g)
    {
      LaterApart(g, from, stores, shown, t, u, outer);
    }
    hide Compatible, ApartFrom, NewTo;
    NextIsNew(hs, vs, g, from, stores, shown, t);
    SeenWithin(stores, t, outer);
    assert |hs| == |vs| by { TookLengths(hs, vs, from, stores, shown, t); }
  }

  lemma TookLengths(hs: seq<SliceStore>, vs: seq<Store>, from: seq<nat>, stores: seq<SliceStore>, shown: seq<Store>,
                    t: nat)
    requires Took(hs, vs, from, stores, shown, t)
    ensures |hs| == |vs|
  {
    hide TookOne;
  }

  lemma SeenWithin(stores: seq<SliceStore>, t: nat, outer: set<array<PathObject>>)
    requires t <= |stores| && forall u | 0 <= u < |stores| :: Arrays(stores[u]) <= outer
    ensures Seen(stores, t) <= outer
  {
    hide Arrays;
  }

  lemma LaterApart(g: SliceStore, from: seq<nat>, stores: seq<SliceStore>, shown: seq<Store>, t: nat, u: nat,
                   outer: set<array<PathObject>>)
    requires Compatible(from, stores, shown) && t <= u < |stores|
    requires Arrays(g) * outer <= Seen(stores, t) && Arrays(stores[u]) <= outer
    ensures Arrays(stores[u]) !! Arrays(g)
  {
    hide Separate, Meet, Arrays;
    assert Seen(stores, t) !! Arrays(stores[u]);
  }

  /** A refresh writes to arrays of populates before, and to new ones. */
  lemma WritesAllowed(g: SliceStore, gv: Store, hs: seq<SliceStore>, vs: seq<Store>, from: seq<nat>,
                      stores: seq<SliceStore>, shown: seq<Store>, t: nat, outer: set<array<PathObject>>,
                      keys: set<string>)
    requires Progress(g, gv, hs, vs, from, stores, shown, t, outer)
    ensures ArraysOf(g, keys) * outer <= Seen(stores, |stores|)
  {
    hide Compatible, LastFound, Refreshed, StrictStore, Mirrors, SharesWhole, Took;
    assert t <= |stores| by { TookTimes(hs, vs, from, stores, shown, t); }
    forall x | x in ArraysOf(g, keys) * outer
      ensures x in Seen(stores, |stores|)
    {
      assert x in Arrays(g) * outer;
    }
  }

  lemma TookTimes(hs: seq<SliceStore>, vs: seq<Store>, from: seq<nat>, stores: seq<SliceStore>, shown: seq<Store>,
                  t: nat)
    requires Took(hs, vs, from, stores, shown, t)
    ensures t <= |from| == |stores| == |shown|
  {
    hide TookOne;
  }

  lemma AfterNext(g': SliceStore, gv': Store, g: SliceStore, gv: Store, hs: seq<SliceStore>, vs: seq<Store>,
                  from: seq<nat>, stores: seq<SliceStore>, shown: seq<Store>, t: nat, outer: set<array<PathObject>>)
    requires Progress(g, gv, hs, vs, from, stores, shown, t, outer) && t < |from| && from[t] < |hs| == |vs|
    requires Settled(g', g, stores[t], outer) && gv' == DiffStore(gv, vs[from[t]], shown[t])
    requires Mirrors(gv', vs[from[t] := shown[t]]) && SharesWhole(g', hs[from[t] := stores[t]])
    ensures Progress(g', gv', hs[from[t] := stores[t]], vs[from[t] := shown[t]], from, stores, shown, t + 1, outer)
  {
    TookStep(hs, vs, from, stores, shown, t);
    hide Compatible, StrictStore, Mirrors, SharesWhole, Took, LastFound, Refreshed, DiffStore;
    assert from[..t+1] == from[..t] + [from[t]] && shown[..t+1] == shown[..t] + [shown[t]];
    OneMore(|hs|, from[..t], shown[..t], from[t], shown[t]);
    SeenGrows(g', g, stores, t, outer);
  }

  lemma SeenGrows(g': SliceStore, g: SliceStore, stores: seq<SliceStore>, t: nat, outer: set<array<PathObject>>)
    requires t < |stores| && Arrays(g) * outer <= Seen(stores, t) && Settled(g', g, stores[t], outer)
    ensures Arrays(g') * outer <= Seen(stores, t + 1)
  {
    forall x | x in Arrays(g') * outer
      ensures x in Seen(stores, t + 1)
    {
      var k :| k in g' && g'[k].paths.arr == x;
      if k in g && g[k].paths.arr == x {
        assert x in Arrays(g) * outer;
      } else {
        assert x in Arrays(stores[t]);
      }
    }
  }

  ghost predicate Hold(caches: seq<SliceCache>, stores: seq<SliceStore>, global: SliceCache)
    reads caches
  {
    |caches| == |stores| && forall j | 0 <= j < |caches| :: caches[j] != global && caches[j].store == stores[j]
  }

  /** A run after `t` refreshes: `held` are the sources' caches. */
  ghost predicate Running(global: SliceCache, held: seq<SliceCache>, from: seq<nat>, found: seq<SliceCache>,
                          hs: seq<SliceStore>, vs: seq<Store>, stores: seq<SliceStore>, shown: seq<Store>, t: nat,
                          outer: set<array<PathObject>>)
    reads global, held, found, Arrays(global.store)
    reads set i, x | 0 <= i < |hs| && x in Arrays(hs[i]) :: x
    reads set i, x | 0 <= i < |stores| && x in Arrays(stores[i]) :: x
  {
    && t <= |from| == |found| == |stores| == |shown| && |held| == |hs| == |vs|
    && global.Valid() && Progress(global.store, global.Shown(), hs, vs, from, stores, shown, t, outer)
    && AllShow(hs, vs) && AllShow(stores[t..], shown[t..])
    && Hold(held, hs, global) && Hold(found, stores, global)
  }

  /** The next refresh of a run. */
  method NextRefresh(global: SliceCache, held: seq<SliceCache>, from: seq<nat>, found: seq<SliceCache>, t: nat,
                     ghost hs: seq<SliceStore>, ghost vs: seq<Store>, ghost stores: seq<SliceStore>,
                     ghost shown: seq<Store>, ghost outer: set<array<PathObject>>)
    requires t < |from| == |found| == |stores| == |shown| && from[t] < |held| == |hs| == |vs|
    requires Running(global, held, from, found, hs, vs, stores, shown, t, outer)
    modifies global, ArraysOf(global.store, hs[from[t]].Keys + stores[t].Keys)
    ensures Running(global, held[from[t] := found[t]], from, found, hs[from[t] := stores[t]], vs[from[t] := shown[t]],
                    stores, shown, t + 1, outer)
  {
    hide Progress, AllShow, SliceCache.Valid, SliceCache.Shown, NewTo, ApartFrom, Mirrors, SharesWhole, StrictStore,
      Settled, Shows, DiffStore;
    ghost var g, gv := global.store, global.Shown();
    RestShow(stores, shown, t);
    NextFacts(g, gv, hs, vs, from, stores, shown, t, outer);
    MirrorsNow(g, gv, hs, vs, from, stores, shown, t, outer);
    RefreshOne(global, held[from[t]], found[t], from[t], hs, vs, shown[t], stores[t+1..], shown[t+1..], outer);
    AfterNext(global.store, global.Shown(), g, gv, hs, vs, from, stores, shown, t, outer);
  }

  lemma RestShow(stores: seq<SliceStore>, shown: seq<Store>, t: nat)
    requires t < |stores| && t <= |shown| && AllShow(stores[t..], shown[t..])
    ensures |stores| == |shown| && Shows(stores[t], shown[t]) && AllShow(stores[t+1..], shown[t+1..])
  {
    hide Shows;
    assert stores[t..][0] == stores[t] && shown[t..][0] == shown[t];
    assert stores[t..][1..] == stores[t+1..] && shown[t..][1..] == shown[t+1..];
  }

  lemma MirrorsNow(g: SliceStore, gv: Store, hs: seq<SliceStore>, vs: seq<Store>, from: seq<nat>,
                   stores: seq<SliceStore>, shown: seq<Store>, t: nat, outer: set<array<PathObject>>)
    requires Progress(g, gv, hs, vs, from, stores, shown, t, outer)
    ensures Mirrors(gv, vs) && SharesWhole(g, hs)
  {
    hide Compatible, Took, Mirrors, SharesWhole, LastFound, Refreshed;
  }

  lemma RunStarts(global: SliceCache, held: seq<SliceCache>, from: seq<nat>, found: seq<SliceCache>,
                  hs: seq<SliceStore>, vs: seq<Store>, stores: seq<SliceStore>, shown: seq<Store>,
                  outer: set<array<PathObject>>)
    requires |found| == |from| && |held| == |hs| == |vs| && OfSources(from, |hs|) && Compatible(from, stores, shown)
    requires forall u | 0 <= u < |stores| :: Arrays(stores[u]) <= outer && StrictStore(shown[u])
    requires AllShow(stores, shown) && global.store == map[]
    requires forall j | 0 <= j < |held| :: held[j] != global && held[j].store == hs[j] == map[] && vs[j] == map[]
    requires forall u | 0 <= u < |found| :: found[u] != global && found[u].store == stores[u]
    ensures Running(global, held, from, found, hs, vs, stores, shown, 0, outer)
  {
    assert stores[0..] == stores && shown[0..] == shown && from[..0] == [];
    assert vs == seq(|hs|, _ => map[]);
    NothingMirrored(vs);
    ShowNothing();
    assert global.Shown() == map[];
    hide Shows, Compatible, Mirrors, StrictStore, IsSetUnion;
    assert SharesWhole(map[], hs);
    assert Progress(global.store, global.Shown(), hs, vs, from, stores, shown, 0, outer);
    hide Progress;
  }

  lemma ShowNothing()
    ensures Shows(map[], map[])
  {
  }

  lemma NothingMirrored(vs: seq<Store>)
    requires forall j | 0 <= j < |vs| :: vs[j] == map[]
    ensures Mirrors(map[], vs)
  {
    forall k
      ensures PathsAt(map[], k) == UnionAt(vs, k)
    {
    }
  }

  lemma RunEnds(g: SliceStore, gv: Store, hs: seq<SliceStore>, vs: seq<Store>, from: seq<nat>, stores: seq<SliceStore>,
                shown: seq<Store>, outer: set<array<PathObject>>)
    requires Progress(g, gv, hs, vs, from, stores, shown, |from|, outer)
    ensures |shown| == |from| && OfSources(from, |hs|)
    ensures gv == Refreshed(|hs|, from, shown) && IsSetUnion(gv, LastFound(|hs|, from, shown)) && StrictStore(gv)
  {
    hide IsSetUnion, StrictStore, SharesWhole, LastFound, Refreshed, Took;
    assert |shown| == |from| by { TookTimes(hs, vs, from, stores, shown, |from|); }
    hide Compatible;
    assert from[..|from|] == from && shown[..|from|] == shown;
  }

  /** Whatever the sources find, in whatever order they are refreshed: if, where two of them ever find one key, their
      lists for it are full and have no path in common, the global cache ends as it would if lists were values, which
      is the union of what each found last, strictly sorted, although it shares arrays with the sources' caches
      throughout. Every beginning of a run is a run, so this holds after each refresh. */
  method Run(sources: nat, from: seq<nat>, found: seq<SliceCache>, ghost stores: seq<SliceStore>,
             ghost shown: seq<Store>)
    returns (global: SliceCache)
    requires |found| == |from| && OfSources(from, sources) && Compatible(from, stores, shown) && AllShow(stores, shown)
    requires forall t | 0 <= t < |from| :: found[t].store == stores[t] && StrictStore(shown[t])
    modifies Seen(stores, |stores|)
    ensures fresh(global) && global.Valid()
    ensures global.Shown() == Refreshed(sources, from, shown)
    ensures IsSetUnion(global.Shown(), LastFound(sources, from, shown)) && StrictStore(global.Shown())
  {
    var held: seq<SliceCache>;
    ghost var outer;
    assert |stores| == |shown| == |from|;
    hide *;
    global, held, outer := Start(sources, stores, shown);
    ghost var hs: seq<SliceStore>, vs: seq<Store> := seq(sources, _ => map[]), seq(sources, _ => map[]);
    RunStarts(global, held, from, found, hs, vs, stores, shown, outer);
    for t := 0 to |from|
      invariant fresh(global) && |held| == |hs| == |vs| == sources
      invariant Running(global, held, from, found, hs, vs, stores, shown, t, outer)
    {
      ghost var i := from[t];
      NextWrites(global, held, from, found, hs, vs, stores, shown, t, outer);
      NextRefresh(global, held, from, found, t, hs, vs, stores, shown, outer);
      held, hs, vs := held[from[t] := found[t]], hs[i := stores[t]], vs[i := shown[t]];
    }
    RunShown(global, held, from, found, hs, vs, stores, shown, outer);
  }

  lemma NextWrites(global: SliceCache, held: seq<SliceCache>, from: seq<nat>, found: seq<SliceCache>,
                   hs: seq<SliceStore>, vs: seq<Store>, stores: seq<SliceStore>, shown: seq<Store>, t: nat,
                   outer: set<array<PathObject>>)
    requires t < |from| == |stores| && Running(global, held, from, found, hs, vs, stores, shown, t, outer)
    ensures from[t] < |hs| && ArraysOf(global.store, hs[from[t]].Keys + stores[t].Keys) * outer
            <= Seen(stores, |stores|)
  {
    hide Progress, AllShow, ArraysOf, SliceCache.Valid, SliceCache.Shown;
    var g, gv := global.store, global.Shown();
    NextFacts(g, gv, hs, vs, from, stores, shown, t, outer);
    WritesAllowed(g, gv, hs, vs, from, stores, shown, t, outer, hs[from[t]].Keys + stores[t].Keys);
  }

  lemma RunShown(global: SliceCache, held: seq<SliceCache>, from: seq<nat>, found: seq<SliceCache>, hs: seq<SliceStore>,
                 vs: seq<Store>, stores: seq<SliceStore>, shown: seq<Store>, outer: set<array<PathObject>>)
    requires Running(global, held, from, found, hs, vs, stores, shown, |from|, outer)
    ensures global.Valid() && |shown| == |from| && OfSources(from, |hs|)
    ensures global.Shown() == Refreshed(|hs|, from, shown)
    ensures IsSetUnion(global.Shown(), LastFound(|hs|, from, shown)) && StrictStore(global.Shown())
  {
    hide Progress, AllShow, SliceCache.Valid, SliceCache.Shown, IsSetUnion, StrictStore;
    RunEnds(global.store, global.Shown(), hs, vs, from, stores, shown, outer);
  }

  method Start(sources: nat, ghost stores: seq<SliceStore>, ghost shown: seq<Store>)
    returns (global: SliceCache, held: seq<SliceCache>, ghost outer: set<array<PathObject>>)
    requires AllShow(stores, shown)
    ensures fresh(global) && global.store == map[] && AllShow(stores, shown)
    ensures |held| == sources && forall i | 0 <= i < sources ::
            fresh(held[i]) && held[i] != global && held[i].store == map[]
    ensures forall x: array<PathObject> | old(allocated(x)) :: x in outer
    ensures forall u | 0 <= u < |stores| :: Arrays(stores[u]) <= outer
  {
    outer := set x: array<PathObject> | allocated(x) && x.Length >= 0;
    global := new SliceCache();
    held := [];
    for j := 0 to sources
      invariant |held| == j && forall i | 0 <= i < j :: fresh(held[i]) && held[i] != global && held[i].store == map[]
      invariant global.store == map[]
    {
      var empty := new SliceCache();
      held := held + [empty];
    }
  }
}
