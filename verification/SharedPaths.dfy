/** The path lists of `server/cache.go` as the code has them: slices. `addNewFrom` stores its caller's slice when
    the key is new, so that the global cache and a source's own cache then look at one backing array, which later
    calls append to, sort and shift in place. What that does to the other holder, and to the union of all sources. */
module SharedPaths {
  import opened Options
  import opened Slices
  import opened Sorting
  import opened Paths
  import opened Caches

  /** `sort.Slice` with `LessThan`. */
  method SortInPlace(s: Slice<PathObject>)
    requires s.Valid()
    modifies s.arr
    ensures s.Contents() == Sort(LessThan, old(s.Contents()))
  {
    hide LessThan, Sort;
    Overwrite(s, Sort(LessThan, s.arr[..s.len]));
  }

  ghost predicate Fits(existing: Slice<PathObject>, e: seq<PathObject>, a: seq<PathObject>) {
    |e| + |a| - CommonPrefix(e, a) <= existing.arr.Length
  }

  /** The scan of `addNewFrom` on slices: what is past the common prefix is appended. */
  method AppendNew(existing: Slice<PathObject>, obj: Slice<PathObject>) returns (paths: Slice<PathObject>)
    requires existing.Valid() && Ordered(existing.Contents()) && obj.Valid() && Ordered(obj.Contents())
    requires obj.arr != existing.arr
    modifies existing.arr
    ensures existing.Contents() == old(existing.Contents()) && paths.Valid()
    ensures paths.Contents() == existing.Contents()
            + obj.Contents()[CommonPrefix(existing.Contents(), obj.Contents())..]
    ensures if paths.len <= existing.arr.Length then paths.arr == existing.arr else fresh(paths.arr)
  {
    hide LessThan, StringLess, CommonPrefix, ScanAt, Appended, Ordered;
    ghost var e, added := existing.Contents(), obj.Contents();
    paths := existing;
    var oIdx, eIdx := 0, 0;
    ScanStart(e, added);
    ScanEnd(e, added);
    while oIdx != obj.len
      invariant 0 <= oIdx <= obj.len && 0 <= eIdx <= existing.len && ScanAt(e, added, oIdx, eIdx)
      invariant existing.Contents() == e && obj.Contents() == added && existing.len <= paths.len
      invariant paths.Valid() && paths.Contents() == e + Appended(e, added, oIdx)
      invariant if paths.len <= existing.arr.Length then paths.arr == existing.arr else fresh(paths.arr)
      decreases obj.len - oIdx + existing.len - eIdx
    {
      var x := obj.arr[oIdx];
      assert x == added[oIdx];
      if eIdx == existing.len {
        ScanAppend(e, added, oIdx, eIdx);
        paths := Append(paths, x);
        oIdx := oIdx + 1;
      } else {
        var y := paths.arr[eIdx];
        assert y == paths.Contents()[eIdx] == e[eIdx];
        if x == y {
          ScanFound(e, added, oIdx, eIdx);
          oIdx, eIdx := oIdx + 1, eIdx + 1;
        } else if LessThan(x, y) {
          ScanSmaller(e, added, oIdx, eIdx);
          eIdx := eIdx + 1;
        } else {
          ScanAppend(e, added, oIdx, eIdx);
          paths := Append(paths, x);
          oIdx := oIdx + 1;
        }
      }
    }
  }

  /** `addNewFrom` on slices, for a key that is there. The entry becomes the merge. If the array has room, the merge is
      written over it, and the slice that was there before shows the front of the merge; if not, that slice keeps its
      contents, as it does in any case if it is full. */
  method AddInPlace(existing: Slice<PathObject>, obj: Slice<PathObject>) returns (paths: Slice<PathObject>)
    requires existing.Valid() && Ordered(existing.Contents()) && obj.Valid() && Ordered(obj.Contents())
    requires obj.arr != existing.arr
    modifies existing.arr
    ensures paths.Valid() && paths.Contents() == Merged(old(existing.Contents()), obj.Contents())
    ensures obj.Contents() == old(obj.Contents())
    ensures Fits(existing, old(existing.Contents()), obj.Contents()) ==>
              paths.arr == existing.arr
              && existing.Contents() == Merged(old(existing.Contents()), obj.Contents())[..existing.len]
    ensures !Fits(existing, old(existing.Contents()), obj.Contents()) ==>
              fresh(paths.arr) && existing.Contents() == old(existing.Contents())
    ensures existing.Full() ==>
              existing.Contents() == old(existing.Contents()) && (paths == existing || fresh(paths.arr))
  {
    hide LessThan, StringLess, CommonPrefix, Ordered, Sort;
    ghost var e, a := existing.Contents(), obj.Contents();
    paths := AppendNew(existing, obj);
    SortInPlace(paths);
    if existing.Full() && Fits(existing, e, a) {
      NothingToMerge(e, a);
    }
  }

  lemma NothingToMerge(e: seq<PathObject>, a: seq<PathObject>)
    requires Ordered(e) && CommonPrefix(e, a) == |a|
    ensures Merged(e, a) == e
  {
    hide LessThan, StringLess, CommonPrefix;
    assert a[CommonPrefix(e, a)..] == [];
    SortAppends(e, []);
  }

  /** What a list of the same length in the same array shows after a deletion. */
  function AfterDeletion(p: seq<PathObject>, del: seq<PathObject>): seq<PathObject> {
    var w := Without(p, del);
    if p == [] || |w| >= |p| then w else w + seq(|p| - |w|, _ => p[|p|-1])
  }

  /** Where the loop of `deletePaths` is, in an array that now shows `view` and whose first `l` elements are still in
      use: the places freed so far show the last path, as does the last place in use until the loop is through with
      it. If the list to delete is in an array of its own (`apart`), the paths in use are those of `DeletingAt`;
      if not, the loop is still at the first path. */
  ghost predicate Shifting(p: seq<PathObject>, del: seq<PathObject>, apart: bool, view: seq<PathObject>, w: nat, l: nat,
                           d: nat, seen: nat) {
    && w <= l <= |p| <= |view| && d <= |del|
    && (forall k | l <= k < |p| :: view[k] == p[|p|-1])
    && (w < l ==> view[l-1] == p[|p|-1])
    && (if apart then DeletingAt(p, del, seen, d, view[..w], view[w..l]) else w == d == 0)
  }

  lemma ShiftStart(p: seq<PathObject>, del: seq<PathObject>, apart: bool, view: seq<PathObject>)
    requires p <= view
    ensures Shifting(p, del, apart, view, 0, |p|, 0, 0)
  {
    DeleteStart(p, del);
    assert view[..0] == [] && view[0..|p|] == p;
  }

  lemma ShiftDelete(p: seq<PathObject>, del: seq<PathObject>, apart: bool, view: seq<PathObject>, w: nat, l: nat,
                    d: nat, seen: nat)
    requires Shifting(p, del, apart, view, w, l, d, seen) && w < l && d < |del| && (apart ==> view[w] == del[d])
    ensures Shifting(p, del, apart, ShiftedOut(view, w, l), w, l - 1, d, seen + 1)
  {
    hide DeletingAt;
    ShiftedOutParts(view, w, l);
    if apart {
      DeleteOne(p, del, seen, d, view[..w], view[w..l]);
    }
    hide ShiftedOut;
  }

  lemma ShiftedOutParts(view: seq<PathObject>, i: nat, l: nat)
    requires i < l <= |view|
    ensures var r := ShiftedOut(view, i, l);
            && r[..i] == view[..i] && r[i..l-1] == view[i..l][1..]
            && (forall k | l - 1 <= k < |view| :: r[k] == view[k]) && (i < l - 1 ==> r[l-2] == view[l-1])
  {
  }

  lemma ShiftKeep(p: seq<PathObject>, del: seq<PathObject>, view: seq<PathObject>, w: nat, l: nat, d: nat, seen: nat)
    requires Ordered(del) && Shifting(p, del, true, view, w, l, d, seen) && w < l && d < |del|
             && LessThan(view[w], del[d])
    ensures Shifting(p, del, true, view, w + 1, l, d, seen + 1)
  {
    hide DeletingAt, LessThan, StringLess, Ordered;
    assert view[..w+1] == view[..w] + [view[w]] && view[w+1..l] == view[w..l][1..];
    KeepOne(p, del, seen, d, view[..w], view[w..l]);
  }

  lemma ShiftSkip(p: seq<PathObject>, del: seq<PathObject>, view: seq<PathObject>, w: nat, l: nat, d: nat, seen: nat)
    requires Ordered(p) && Shifting(p, del, true, view, w, l, d, seen) && w < l && d < |del|
    requires view[w] != del[d] && !LessThan(view[w], del[d])
    ensures Shifting(p, del, true, view, w, l, d + 1, seen)
  {
    hide DeletingAt, LessThan, StringLess, Ordered;
    SkipOne(p, del, seen, d, view[..w], view[w..l]);
  }

  lemma FreedShowLast(p: seq<PathObject>, del: seq<PathObject>, view: seq<PathObject>, l: nat)
    requires l <= |p| <= |view| && view[..l] == Without(p, del) && forall k | l <= k < |p| :: view[k] == p[|p|-1]
    ensures view[..|p|] == AfterDeletion(p, del)
  {
    hide Without;
    assert |view[..l]| == l;
    forall k | 0 <= k < |p|
      ensures view[..|p|][k] == AfterDeletion(p, del)[k]
    {
      assert k < l ==> view[..l][k] == view[k];
    }
  }

  lemma ShiftEnd(p: seq<PathObject>, del: seq<PathObject>, apart: bool, view: seq<PathObject>, w: nat, l: nat, d: nat,
                 seen: nat)
    requires Shifting(p, del, apart, view, w, l, d, seen) && (d == |del| || w == l)
    ensures apart ==> view[..l] == Without(p, del)
    ensures !apart && del != [] ==> l == 0
    ensures apart ==> view[..|p|] == AfterDeletion(p, del)
    ensures forall k | l <= k < |p| :: view[k] == p[|p|-1]
  {
    hide LessThan, StringLess, Ordered, Without, DeletingAt, AfterDeletion;
    if apart {
      DeleteEnd(p, del, seen, d, view[..w], view[w..l]);
      assert view[..l] == view[..w] + view[w..l];
      FreedShowLast(p, del, view, l);
    }
  }

  /** The loop of `deletePaths` on slices. With an array of its own, `toDelete` is deleted. But `calcDiff` passes the
      old entry's own slice when the key is gone, and if that is the array being shifted, everything goes. Either
      way every place that the shifting frees keeps showing the last path. */
  method DeleteInPlace(paths: Slice<PathObject>, toDelete: Slice<PathObject>) returns (workingCopy: Slice<PathObject>)
    requires paths.Valid() && toDelete.Valid() && Ordered(paths.Contents()) && Ordered(toDelete.Contents())
    modifies paths.arr
    ensures workingCopy.arr == paths.arr && workingCopy.len <= paths.len
    ensures toDelete.arr != paths.arr || toDelete.len == 0 ==>
              workingCopy.Contents() == Without(old(paths.Contents()), old(toDelete.Contents()))
    ensures toDelete.arr != paths.arr
            ==> paths.Contents() == AfterDeletion(old(paths.Contents()), old(toDelete.Contents()))
    ensures toDelete.arr == paths.arr && toDelete.len > 0 ==> workingCopy.len == 0
    ensures forall k | workingCopy.len <= k < paths.len :: paths.arr[k] == old(paths.arr[paths.len-1])
  {
    hide LessThan, StringLess, Without, Ordered, ShiftedOut, Shifting, AfterDeletion;
    ghost var p, del, apart := paths.Contents(), toDelete.Contents(), toDelete.arr != paths.arr || toDelete.len == 0;
    ghost var view, seen := paths.arr[..], 0;
    workingCopy := paths;
    var wIdx, dIdx := 0, 0;
    ShiftStart(p, del, apart, view);
    while dIdx != toDelete.len && wIdx != workingCopy.len
      invariant workingCopy.arr == paths.arr && workingCopy.len <= paths.len
      invariant wIdx <= workingCopy.len && dIdx <= toDelete.len
      invariant paths.arr[..] == view && Shifting(p, del, apart, view, wIdx, workingCopy.len, dIdx, seen)
      invariant if apart then dIdx < toDelete.len ==> toDelete.Contents() == del else wIdx == dIdx == 0
      decreases workingCopy.len - wIdx + toDelete.len - dIdx
    {
      var w, d := workingCopy.arr[wIdx], toDelete.arr[dIdx];
      assert w == view[wIdx] && (apart ==> d == del[dIdx]);
      if w == d {
        ShiftDelete(p, del, apart, view, wIdx, workingCopy.len, dIdx, seen);
        view, seen := ShiftedOut(view, wIdx, workingCopy.len), seen + 1;
        workingCopy := RemoveAt(workingCopy, wIdx);
      } else if LessThan(w, d) {
        ShiftKeep(p, del, view, wIdx, workingCopy.len, dIdx, seen);
        wIdx, seen := wIdx + 1, seen + 1;
      } else {
        ShiftSkip(p, del, view, wIdx, workingCopy.len, dIdx, seen);
        dIdx := dIdx + 1;
      }
    }
    ShiftEnd(p, del, apart, view, wIdx, workingCopy.len, dIdx, seen);
  }

  // ---------- what sharing does to the union of all sources

  /** What a source's own cache shows of an entry after another source's paths were added in the shared array. */
  function View(e: seq<PathObject>, a: seq<PathObject>): (v: seq<PathObject>)
    ensures |v| == |e| && v <= Merged(e, a)
  {
    Merged(e, a)[..|e|]
  }

  lemma {:induction false} WithoutLength(p: seq<PathObject>, del: seq<PathObject>)
    ensures |Without(p, del)| <= |p| && (|Without(p, del)| == |p| ==> Without(p, del) == p)
  {
    if p != [] {
      WithoutLength(p[1..], del);
    }
  }

  /** A deletion in a shared array leaves the other holder's list of `l` paths as it was exactly if it takes none of
      them away, but for the last path of the array, which stays where it is. */
  lemma DeletionSparesHolderIff(p: seq<PathObject>, del: seq<PathObject>, l: nat)
    requires StrictlyOrdered(p) && l <= |p|
    ensures |AfterDeletion(p, del)| == |p|
    ensures AfterDeletion(p, del)[..l] == p[..l] <==> forall j | 0 <= j < l && j < |p| - 1 :: p[j] !in del
  {
    hide LessThan, StringLess, StrictlyOrdered, Without;
    WithoutLength(p, del);
    var m := if l < |p| then l else if p == [] then 0 else |p| - 1;
    if forall j | 0 <= j < m :: p[j] !in del {
      KeptFront(p, del, m);
      SparedShows(p, del, m);
      assert l <= m || l == |p|;
      assert AfterDeletion(p, del)[..l] == p[..l];
    } else {
      var j := FirstTaken(p, del, m);
      KeptFront(p, del, j);
      TakenShows(p, del, j);
      hide AfterDeletion;
      assert AfterDeletion(p, del)[..l][j] != p[..l][j];
    }
  }

  lemma SparedShows(p: seq<PathObject>, del: seq<PathObject>, m: nat)
    requires m <= |p| && Without(p, del) == p[..m] + Without(p[m..], del)
    ensures |AfterDeletion(p, del)| == |p| && AfterDeletion(p, del)[..m] == p[..m]
    ensures m == |p| - 1 ==> AfterDeletion(p, del) == p
  {
    WithoutLength(p, del);
    var r := AfterDeletion(p, del);
    if m == |p| - 1 {
      assert p[m..] == [p[m]];
      assert r == p[..m] + [p[m]];
    }
  }

  lemma FirstTaken(p: seq<PathObject>, del: seq<PathObject>, m: nat) returns (j: nat)
    requires m <= |p| && exists i :: 0 <= i < m && p[i] in del
    ensures j < m && p[j] in del && forall i | 0 <= i < j :: p[i] !in del
  {
    j := 0;
    while p[j] !in del
      decreases m - j
      invariant j < m && exists i :: j <= i < m && p[i] in del
      invariant forall i | 0 <= i < j :: p[i] !in del
    {
      j := j + 1;
    }
  }

  lemma KeptFront(p: seq<PathObject>, del: seq<PathObject>, m: nat)
    requires m <= |p| && forall i | 0 <= i < m :: p[i] !in del
    ensures Without(p, del) == p[..m] + Without(p[m..], del)
  {
    hide Without;
    assert p == p[..m] + p[m..];
    WithoutConcat(p[..m], p[m..], del);
    WithoutNone(p[..m], del);
  }

  /** The place of the first path taken away shows a later one. */
  lemma TakenShows(p: seq<PathObject>, del: seq<PathObject>, j: nat)
    requires StrictlyOrdered(p) && j < |p| - 1 && p[j] in del && Without(p, del) == p[..j] + Without(p[j..], del)
    ensures |AfterDeletion(p, del)| == |p| && AfterDeletion(p, del)[j] != p[j]
  {
    hide LessThan, StringLess;
    WithoutLength(p, del);
    var w, r := Without(p, del), Without(p[j..], del);
    WithoutElements(p[j..], del);
    if r != [] {
      assert w[j] == r[0] && r[0] in r;
    }
    Compare(p[j], p[|p|-1], p[j]);
    assert p[j] in p;
    assert |w| < |p| by { if |w| == |p| { WithoutElements(p, del); } }
  }

  /** Adding in the shared array leaves the other holder's list as it was exactly if no path added past the common
      prefix sorts before one that was there. */
  lemma ViewSurvivesIff(e: seq<PathObject>, a: seq<PathObject>)
    requires Ordered(e)
    ensures View(e, a) == e <==> forall p, x | p in a[CommonPrefix(e, a)..] && x in e :: !LessThan(p, x)
  {
    hide LessThan, StringLess, CommonPrefix;
    var tail := a[CommonPrefix(e, a)..];
    SortOrdered(e + tail);
    if View(e, a) == e {
      PrefixBelow(e, tail);
    }
    if forall p, x | p in tail && x in e :: !LessThan(p, x) {
      SortAppends(e, tail);
    }
  }

  lemma PrefixBelow(e: seq<PathObject>, tail: seq<PathObject>)
    requires Ordered(Sort(LessThan, e + tail)) && Sort(LessThan, e + tail)[..|e|] == e
    ensures forall p, x | p in tail && x in e :: !LessThan(p, x)
  {
    hide LessThan, StringLess, Sort;
    var r := Sort(LessThan, e + tail);
    assert r == e + r[|e|..];
    RestElements(e, tail, r[|e|..]);
    forall p, x | p in tail && x in e
      ensures !LessThan(p, x)
    {
      var i :| 0 <= i < |e| && e[i] == x;
      var j :| 0 <= j < |r[|e|..]| && r[|e|..][j] == p;
      assert r[i] == x && r[|e| + j] == p;
    }
  }

  lemma RestElements(e: seq<PathObject>, s: seq<PathObject>, t: seq<PathObject>)
    requires multiset(e + s) == multiset(e + t)
    ensures forall x :: x in s <==> x in t
  {
    assert multiset(e) + multiset(s) == multiset(e) + multiset(t);
    assert multiset(s) == multiset(e) + multiset(s) - multiset(e);
    assert multiset(t) == multiset(e) + multiset(t) - multiset(e);
    SameElements(s, t);
  }

  lemma SortAppends(e: seq<PathObject>, tail: seq<PathObject>)
    requires Ordered(e) && forall p, x | p in tail && x in e :: !LessThan(p, x)
    ensures Sort(LessThan, e + tail) == e + Sort(LessThan, tail)
  {
    hide LessThan, StringLess, Sort;
    var t := Sort(LessThan, tail);
    SortOrdered(e + tail);
    SortOrdered(tail);
    SameElements(t, tail);
    forall i, j | 0 <= i < j < |e + t|
      ensures !LessThan((e + t)[j], (e + t)[i])
    {
      assert i < |e| <= j ==> (e + t)[j] in t && (e + t)[i] in e;
    }
    LessThanIsStrictTotalOrder();
    SortedUnique(LessThan, Sort(LessThan, e + tail), e + t);
  }

  /** A source lists `e` for a key, another source then adds `a` in the shared array, and the first source is
      refreshed and finds exactly what it found before: of what was added, the entry loses what the view shows. */
  lemma UnchangedRefreshSet(e: seq<PathObject>, a: seq<PathObject>, m: Metadata)
    requires StrictlyOrdered(e) && StrictlyOrdered(a) && e != [] && PathSet(e) !! PathSet(a)
    ensures PathsOf(UnchangedRefresh(e, a, View(e, a), m)) == PathSet(e) + (PathSet(a) - PathSet(View(e, a)))
  {
    hide LessThan, StringLess, DiffEntry, Merged;
    var g, o, n := CacheObject(m, Merged(e, a)), CacheObject(m, View(e, a)), CacheObject(m, e);
    AddedFacts(e, a);
    PrefixStrict(Merged(e, a), |e|);
    DiffEntrySet(Some(g), Some(o), Some(n));
    hide PathSet;
    assert PathSet(View(e, a)) - PathSet(e) <= PathSet(a);
  }

  /** The entry after that refresh, if the source's own cache shows `v` of what it found before. */
  function UnchangedRefresh(e: seq<PathObject>, a: seq<PathObject>, v: seq<PathObject>,
                            m: Metadata): Option<CacheObject> {
    DiffEntry(Some(CacheObject(m, Merged(e, a))), Some(CacheObject(m, v)), Some(CacheObject(m, e)))
  }

  /** The entry still has every path of both sources if and only if nothing that was added sorts before something
      of the first source. */
  lemma UnchangedRefreshKeepsUnionIff(e: seq<PathObject>, a: seq<PathObject>, m: Metadata)
    requires StrictlyOrdered(e) && StrictlyOrdered(a) && e != [] && PathSet(e) !! PathSet(a)
    ensures PathsOf(UnchangedRefresh(e, a, View(e, a), m)) == PathSet(e) + PathSet(a)
            <==> forall p, x | p in a && x in e :: !LessThan(p, x)
  {
    hide LessThan, StringLess, UnchangedRefresh, Merged, View;
    UnchangedRefreshSet(e, a, m);
    StrictIsOrdered(e);
    ViewSurvivesIff(e, a);
    NoCommonPrefix(e, a);
    AddedFacts(e, a);
    PrefixStrict(Merged(e, a), |e|);
    assert View(e, a) == Merged(e, a)[..|e|];
    ViewApart(e, a);
  }

  lemma NoCommonPrefix(e: seq<PathObject>, a: seq<PathObject>)
    requires e != [] && PathSet(e) !! PathSet(a)
    ensures a[CommonPrefix(e, a)..] == a
  {
    if a != [] {
      assert e[0] in PathSet(e) && a[0] in PathSet(a);
    }
  }

  lemma PrefixStrict(s: seq<PathObject>, k: nat)
    requires StrictlyOrdered(s) && k <= |s|
    ensures StrictlyOrdered(s[..k]) && PathSet(s[..k]) <= PathSet(s)
  {
    hide LessThan, StringLess;
  }

  /** The view holds none of the added paths exactly if it is still the old list. */
  lemma ViewApart(e: seq<PathObject>, a: seq<PathObject>)
    requires StrictlyOrdered(e) && PathSet(e) !! PathSet(a)
    requires StrictlyOrdered(View(e, a)) && PathSet(View(e, a)) <= PathSet(e) + PathSet(a)
    ensures PathSet(View(e, a)) !! PathSet(a) <==> View(e, a) == e
  {
    hide LessThan, StringLess, View;
    var v := View(e, a);
    if PathSet(v) !! PathSet(a) {
      SameSizeSubset(v, e);
    }
  }

  lemma SameSizeSubset(v: seq<PathObject>, e: seq<PathObject>)
    requires StrictlyOrdered(v) && StrictlyOrdered(e) && |v| == |e| && PathSet(v) <= PathSet(e)
    ensures v == e
  {
    hide LessThan, StringLess;
    StrictIsOrdered(v);
    StrictIsOrdered(e);
    forall x
      ensures multiset(v)[x] <= multiset(e)[x]
    {
      assert x in v ==> x in PathSet(v);
      assert x in PathSet(e) ==> x in e;
    }
    assert multiset(e) == multiset(v) + (multiset(e) - multiset(v));
    assert |multiset(e)| == |e| && |multiset(v)| == |v|;
    assert multiset(e) == multiset(v);
    LessThanIsStrictTotalOrder();
    SortedUnique(LessThan, v, e);
  }

  /** Deleting a source's own list, held in an array of its own, leaves precisely what the other source added.
      `DeleteInPlace` on the shared array leaves nothing instead, so the two agree exactly if nothing was added. */
  lemma SeparateDeleteKeepsOthers(e: seq<PathObject>, a: seq<PathObject>)
    requires PathSet(e) !! PathSet(a)
    ensures PathSet(Without(Merged(e, a), e)) == PathSet(a)
    ensures Without(Merged(e, a), e) == [] <==> a == []
  {
    hide LessThan, StringLess, Merged, Without;
    MergedHasUnion(e, a);
    WithoutElements(Merged(e, a), e);
    var r := Without(Merged(e, a), e);
    forall p
      ensures p in r <==> p in a
    {
      assert p in r <==> p in PathSet(Merged(e, a)) && p !in PathSet(e);
      assert p in a <==> p in PathSet(a);
    }
    assert r != [] ==> r[0] in a;
    assert a != [] ==> a[0] in r;
  }

  /** Where the condition fails: one source lists three places, and a source whose name sorts before adds a fourth. */
  lemma UnchangedRefreshLoses(m: Metadata)
    ensures var e := [PathObject("a", "vault"), PathObject("b", "vault"), PathObject("c", "vault")];
            var x := PathObject("x", "alpha");
            StrictlyOrdered(e) && x !in e && PathsOf(UnchangedRefresh(e, [x], View(e, [x]), m)) == PathSet(e)
  {
    var a, b, c := PathObject("a", "vault"), PathObject("b", "vault"), PathObject("c", "vault");
    var x := PathObject("x", "alpha");
    assert LessThan(x, a) && LessThan(a, b) && LessThan(b, c) && LessThan(a, c);
    hide LessThan, StringLess;
    LosesSingle([a, b, c], x, m);
  }

  /** A single path that sorts before one that was there is lost. */
  lemma LosesSingle(e: seq<PathObject>, x: PathObject, m: Metadata)
    requires StrictlyOrdered(e) && x !in e && exists y :: y in e && LessThan(x, y)
    ensures PathsOf(UnchangedRefresh(e, [x], View(e, [x]), m)) == PathSet(e)
  {
    hide LessThan, StringLess, UnchangedRefresh, View;
    var y :| y in e && LessThan(x, y);
    assert x in [x];
    UnchangedRefreshKeepsUnionIff(e, [x], m);
    UnchangedRefreshSet(e, [x], m);
  }

  // ---------- the two stories, on slices

  lemma ViewOrdered(e: seq<PathObject>, a: seq<PathObject>)
    ensures Ordered(Merged(e, a)) && Ordered(View(e, a))
  {
    hide LessThan, StringLess;
    SortOrdered(e + a[CommonPrefix(e, a)..]);
  }

  /** What deleting and adding leave of the entry has the paths that the diff of values has. */
  lemma RefreshedSet(e: seq<PathObject>, a: seq<PathObject>, v: seq<PathObject>, m: Metadata)
    ensures PathSet(Merged(Without(Merged(e, a), Minus(v, multiset(e))), Minus(e, multiset(v))))
         == PathsOf(UnchangedRefresh(e, a, v, m))
  {
    hide LessThan, StringLess, Without, Merged, Minus;
    var kept := Without(Merged(e, a), Minus(v, multiset(e)));
    MergedHasUnion(kept, Minus(e, multiset(v)));
  }

  /** If the source's own list is intact, nothing happens to the entry. */
  lemma IntactRefreshSet(e: seq<PathObject>, a: seq<PathObject>, m: Metadata)
    requires StrictlyOrdered(e)
    ensures PathsOf(UnchangedRefresh(e, a, e, m)) == PathSet(e) + PathSet(a)
  {
    hide LessThan, StringLess, DiffEntry, Merged;
    MergedHasUnion(e, a);
    DiffEntrySet(Some(CacheObject(m, Merged(e, a))), Some(CacheObject(m, e)), Some(CacheObject(m, e)));
    hide PathSet;
  }

  lemma RefreshOutcome(e: seq<PathObject>, a: seq<PathObject>, fits: bool)
    requires StrictlyOrdered(e) && StrictlyOrdered(a) && e != [] && PathSet(e) !! PathSet(a)
    ensures var v := if fits then View(e, a) else e;
            PathSet(Merged(Without(Merged(e, a), Minus(v, multiset(e))), Minus(e, multiset(v))))
            == PathSet(e) + PathSet(a)
            <==> !fits || forall p, x | p in a && x in e :: !LessThan(p, x)
  {
    hide LessThan, StringLess, StrictlyOrdered, UnchangedRefresh, View, Merged, Without, Minus, PathSet;
    var m := Metadata("", 0);
    if fits {
      RefreshedSet(e, a, View(e, a), m);
      UnchangedRefreshKeepsUnionIff(e, a, m);
    } else {
      RefreshedSet(e, a, e, m);
      IntactRefreshSet(e, a, m);
    }
  }

  /** The global cache holds the very slice `own` of a source's cache. Another source adds paths of its own, and then
      the first source is refreshed and finds the same as before, in a new slice. The entry ends with the union of
      both exactly if the addition did not fit into the array, or nothing added sorts before something of `own`. */
  method AddThenRefresh(own: Slice<PathObject>, other: Slice<PathObject>, again: Slice<PathObject>)
    returns (entry: Slice<PathObject>)
    requires own.Valid() && other.Valid() && again.Valid() && own.arr != other.arr && own.arr != again.arr
    requires StrictlyOrdered(own.Contents()) && own.len > 0 && again.Contents() == own.Contents()
    requires StrictlyOrdered(other.Contents()) && PathSet(own.Contents()) !! PathSet(other.Contents())
    modifies own.arr
    ensures entry.Valid() && other.Contents() == old(other.Contents()) && again.Contents() == old(again.Contents())
    ensures PathSet(entry.Contents()) == PathSet(again.Contents()) + PathSet(other.Contents()) <==>
              !Fits(own, old(own.Contents()), other.Contents())
              || forall p, x | p in other.Contents() && x in again.Contents() :: !LessThan(p, x)
  {
    hide LessThan, StringLess, StrictlyOrdered, Ordered, Merged, Without, Minus, PathSet, CommonPrefix, Fits;
    ghost var e, a, fits := own.Contents(), other.Contents(), Fits(own, own.Contents(), other.Contents());
    StrictIsOrdered(e);
    StrictIsOrdered(a);
    ViewOrdered(e, a);
    entry := AddInPlace(own, other);
    ghost var v := own.Contents();
    assert v == if fits then View(e, a) else e;
    var toDelete, toAdd := PathListDiff(own.arr[..own.len], again.arr[..again.len]);
    var del := Built(toDelete);
    var add := Built(toAdd);
    entry := DeleteInPlace(entry, del);
    WithoutOrdered(Merged(e, a), toDelete);
    entry := AddInPlace(entry, add);
    RefreshOutcome(e, a, fits);
  }

  /** The same beginning, but then the key is gone from the first source. `calcDiff` passes `own` itself as the list
      to delete. What the other source added is all that is left exactly if it did not fit into the array, or was
      nothing. */
  method AddThenVanish(own: Slice<PathObject>, other: Slice<PathObject>) returns (entry: Slice<PathObject>)
    requires own.Valid() && other.Valid() && own.arr != other.arr && own.len > 0
    requires Ordered(own.Contents()) && Ordered(other.Contents())
             && PathSet(own.Contents()) !! PathSet(other.Contents())
    modifies own.arr
    ensures entry.Valid() && other.Contents() == old(other.Contents())
    ensures PathSet(entry.Contents()) == PathSet(other.Contents()) <==>
              !Fits(own, old(own.Contents()), other.Contents()) || other.len == 0
  {
    hide LessThan, StringLess, Ordered, Merged, Without, CommonPrefix, Fits;
    ghost var e, a, fits := own.Contents(), other.Contents(), Fits(own, own.Contents(), other.Contents());
    ViewOrdered(e, a);
    entry := AddInPlace(own, other);
    assert own.Contents() == if fits then View(e, a) else e;
    entry := DeleteInPlace(entry, own);
    SeparateDeleteKeepsOthers(e, a);
    assert a != [] ==> a[0] in PathSet(a);
  }
}
