/** Path objects, their order, and the two-index walks over sorted path lists of `server/cache.go`.
    A path list is a sequence value: no two caches share a backing array. */
module Paths {
  import opened Sorting

  datatype PathObject = PathObject(location: string, source: string)

  /** Go's `<` on strings. */
  predicate StringLess(a: string, b: string) {
    if b == [] then false
    else if a == [] then true
    else if a[0] != b[0] then a[0] < b[0]
    else StringLess(a[1..], b[1..])
  }

  predicate LessThan(lhs: PathObject, rhs: PathObject) {
    if lhs.source == rhs.source then StringLess(lhs.location, rhs.location)
    else StringLess(lhs.source, rhs.source)
  }

  ghost predicate Ordered(s: seq<PathObject>) {
    Sorted(LessThan, s)
  }

  ghost predicate StrictlyOrdered(s: seq<PathObject>) {
    forall i, j | 0 <= i < j < |s| :: LessThan(s[i], s[j])
  }

  lemma {:induction false} StringLessTotal(a: string, b: string)
    ensures a == b || StringLess(a, b) || StringLess(b, a)
    ensures !StringLess(a, a)
    ensures !(StringLess(a, b) && StringLess(b, a))
  {
    if a == [] {
    } else if b == [] {
      StringLessTotal(a[1..], b);
    } else {
      StringLessTotal(a[1..], b[1..]);
      StringLessTotal(a[1..], a[1..]);
      assert a == [a[0]] + a[1..] && b == [b[0]] + b[1..];
    }
  }

  /** One string is less than another where they first differ, or where it ends. */
  lemma StringLessIff(a: string, b: string)
    ensures StringLess(a, b) <==> exists k :: FirstDiffersAt(a, b, k)
  {
    if StringLess(a, b) {
      var k := DifferenceAt(a, b);
    }
    if exists k :: FirstDiffersAt(a, b, k) {
      var k :| FirstDiffersAt(a, b, k);
      LessFromDifference(a, b, k);
    }
  }

  predicate FirstDiffersAt(a: string, b: string, k: int) {
    0 <= k <= |a| && k < |b| && a[..k] == b[..k] && (k < |a| ==> a[k] < b[k])
  }

  lemma {:induction false} DifferenceAt(a: string, b: string) returns (k: nat)
    requires StringLess(a, b)
    ensures FirstDiffersAt(a, b, k)
  {
    if a == [] || a[0] != b[0] {
      k := 0;
    } else {
      k := DifferenceAt(a[1..], b[1..]);
      k := k + 1;
      assert a[..k] == [a[0]] + a[1..][..k-1] && b[..k] == [b[0]] + b[1..][..k-1];
    }
  }

  lemma {:induction false} LessFromDifference(a: string, b: string, k: nat)
    requires FirstDiffersAt(a, b, k)
    ensures StringLess(a, b)
  {
    if k > 0 {
      assert a[0] == a[..k][0] && b[0] == b[..k][0];
      assert a[1..][..k-1] == a[..k][1..] && b[1..][..k-1] == b[..k][1..];
      LessFromDifference(a[1..], b[1..], k - 1);
    }
  }

  /** Paths are ordered by the name of the source first, then by location. */
  lemma LessThanIff(p: PathObject, q: PathObject)
    ensures LessThan(p, q) <==>
              || (exists k :: FirstDiffersAt(p.source, q.source, k))
              || (p.source == q.source && exists k :: FirstDiffersAt(p.location, q.location, k))
  {
    StringLessIff(p.source, q.source);
    StringLessIff(p.location, q.location);
    StringLessTotal(p.source, p.source);
    hide FirstDiffersAt, StringLess;
  }

  lemma {:induction false} StringLessTransitive(a: string, b: string, c: string)
    requires StringLess(a, b) && StringLess(b, c)
    ensures StringLess(a, c)
  {
    if a != [] && a[0] == b[0] == c[0] {
      StringLessTransitive(a[1..], b[1..], c[1..]);
    }
  }

  /** `LessThan` is a strict total order, so a sorted path list is determined by its elements. */
  lemma LessThanIsStrictTotalOrder()
    ensures StrictOrder(LessThan)
    ensures forall s: seq<PathObject> :: TotalOn(LessThan, s)
  {
    forall x: PathObject, y: PathObject
      ensures !LessThan(x, x) && (x == y || LessThan(x, y) || LessThan(y, x))
    {
      StringLessTotal(x.source, y.source);
      StringLessTotal(x.location, y.location);
    }
    forall x: PathObject, y: PathObject, z: PathObject | LessThan(x, y) && LessThan(y, z)
      ensures LessThan(x, z)
    {
      StringLessTotal(x.source, y.source);
      if x.source == y.source == z.source {
        StringLessTransitive(x.location, y.location, z.location);
      } else if x.source != y.source && y.source != z.source {
        StringLessTransitive(x.source, y.source, z.source);
        StringLessTotal(x.source, z.source);
      }
    }
  }

  /** One step of the order facts, for use at named elements. */
  lemma Compare(x: PathObject, y: PathObject, z: PathObject)
    ensures !LessThan(x, x)
    ensures x == y || LessThan(x, y) || LessThan(y, x)
    ensures !(LessThan(x, y) && LessThan(y, x))
    ensures LessThan(x, y) && !LessThan(z, y) ==> LessThan(x, z)
    ensures !LessThan(y, x) && LessThan(y, z) ==> LessThan(x, z)
  {
    LessThanIsStrictTotalOrder();
    assert TotalOn(LessThan, [x, y, z]);
    assert x in [x, y, z] && y in [x, y, z] && z in [x, y, z];
  }

  /** The sorted sequence `o` with one occurrence taken out for each occurrence in `n`. */
  function Minus(o: seq<PathObject>, n: multiset<PathObject>): (r: seq<PathObject>)
    ensures multiset(r) == multiset(o) - n
  {
    if o == [] then [] else
      assert o == [o[0]] + o[1..];
      if o[0] in n then Minus(o[1..], n - multiset{o[0]}) else [o[0]] + Minus(o[1..], n)
  }

  /** The entries of `s` that do not occur in `del`, in order. */
  function Without(s: seq<PathObject>, del: seq<PathObject>): seq<PathObject> {
    if s == [] then [] else (if s[0] in del then [] else [s[0]]) + Without(s[1..], del)
  }

  lemma {:induction false} WithoutElements(s: seq<PathObject>, del: seq<PathObject>)
    ensures forall x :: x in Without(s, del) <==> x in s && x !in del
  {
    if s != [] {
      WithoutElements(s[1..], del);
      assert s == [s[0]] + s[1..];
    }
  }

  lemma {:induction false} WithoutConcat(s: seq<PathObject>, t: seq<PathObject>, del: seq<PathObject>)
    ensures Without(s + t, del) == Without(s, del) + Without(t, del)
  {
    if s == [] {
      assert s + t == t;
    } else {
      assert (s + t)[0] == s[0] && (s + t)[1..] == s[1..] + t;
      WithoutConcat(s[1..], t, del);
      var head := if s[0] in del then [] else [s[0]];
      assert Without(s + t, del) == head + Without(s[1..] + t, del);
      assert head + (Without(s[1..], del) + Without(t, del)) == head + Without(s[1..], del) + Without(t, del);
    }
  }

  lemma {:induction false} WithoutNone(s: seq<PathObject>, del: seq<PathObject>)
    requires forall x | x in s :: x !in del
    ensures Without(s, del) == s
  {
    if s != [] {
      WithoutNone(s[1..], del);
    }
  }

  lemma {:induction false} MinusOrdered(o: seq<PathObject>, n: multiset<PathObject>)
    requires Ordered(o)
    ensures Ordered(Minus(o, n))
  {
    hide LessThan, StringLess;
    if o == [] {
    } else {
      var left := if o[0] in n then n - multiset{o[0]} else n;
      MinusOrdered(o[1..], left);
      MinusWithin(o[1..], left);
      OrderedCons(o, Minus(o[1..], left));
    }
  }

  lemma MinusWithin(o: seq<PathObject>, n: multiset<PathObject>)
    ensures forall x | x in Minus(o, n) :: x in o
  {
    hide Minus;
    forall x | x in Minus(o, n)
      ensures x in o
    {
      assert x in multiset(Minus(o, n));
    }
  }

  lemma OrderedCons(s: seq<PathObject>, rest: seq<PathObject>)
    requires Ordered(s) && s != [] && Ordered(rest) && forall x | x in rest :: x in s[1..]
    ensures Ordered([s[0]] + rest)
  {
    hide LessThan, StringLess;
    forall j | 0 <= j < |rest|
      ensures !LessThan(rest[j], s[0])
    {
      assert rest[j] in s[1..];
      var k :| 0 <= k < |s[1..]| && s[1..][k] == rest[j];
      assert s[k + 1] == rest[j];
    }
  }

  lemma {:induction false} WithoutStrict(s: seq<PathObject>, del: seq<PathObject>)
    requires StrictlyOrdered(s)
    ensures StrictlyOrdered(Without(s, del))
  {
    if s != [] {
      WithoutStrict(s[1..], del);
      var rest := Without(s[1..], del);
      WithoutElements(s[1..], del);
      forall j | 0 <= j < |rest|
        ensures LessThan(s[0], rest[j])
      {
        assert rest[j] in s[1..];
        var k :| 1 <= k < |s| && s[k] == rest[j];
      }
    }
  }

  lemma {:induction false} WithoutOrdered(s: seq<PathObject>, del: seq<PathObject>)
    requires Ordered(s)
    ensures Ordered(Without(s, del))
  {
    hide LessThan, StringLess;
    if s == [] {
    } else {
      WithoutOrdered(s[1..], del);
      WithoutElements(s[1..], del);
      OrderedCons(s, Without(s[1..], del));
    }
  }

  lemma StrictIsOrdered(s: seq<PathObject>)
    requires StrictlyOrdered(s)
    ensures Ordered(s)
    ensures forall x :: multiset(s)[x] == if x in s then 1 else 0
  {
    forall i, j | 0 <= i < j < |s|
      ensures !LessThan(s[j], s[i])
    {
      Compare(s[i], s[j], s[i]);
    }
    forall i, j | 0 <= i < j < |s|
      ensures s[i] != s[j]
    {
      Compare(s[i], s[j], s[i]);
    }
    DistinctMultiplicity(s);
  }

  /** An ordered list with no repeated entry is strictly ordered. */
  lemma OrderedDistinctIsStrict(s: seq<PathObject>)
    requires Ordered(s) && forall x :: multiset(s)[x] <= 1
    ensures StrictlyOrdered(s)
  {
    forall i, j | 0 <= i < j < |s|
      ensures LessThan(s[i], s[j])
    {
      RepeatedEntry(s, i, j);
      Compare(s[i], s[j], s[i]);
    }
  }

  /** Every entry of `xs` precedes what is left of `s` from index `k` on. */
  ghost predicate Below(xs: seq<PathObject>, s: seq<PathObject>, k: nat) {
    forall x, j | x in xs && k <= j < |s| :: LessThan(x, s[j])
  }

  /** No entry left in `s` from index `k` on precedes one of `xs`. */
  ghost predicate NotAbove(xs: seq<PathObject>, s: seq<PathObject>, k: nat) {
    forall x, j | x in xs && k <= j < |s| :: !LessThan(s[j], x)
  }

  ghost predicate Apart(xs: seq<PathObject>, ys: seq<PathObject>) {
    forall x | x in xs :: x !in ys
  }

  /** Where `pathListDiff` is: `i` entries of `o` and `j` of `n` are done, of which `c` are shared, and the others
      went to `d` and `a`. */
  ghost predicate DiffAt(o: seq<PathObject>, n: seq<PathObject>, i: nat, j: nat, d: seq<PathObject>, a: seq<PathObject>,
                         c: multiset<PathObject>) {
    && i <= |o| && j <= |n|
    && multiset(o[..i]) == multiset(d) + c && multiset(n[..j]) == multiset(a) + c
    && Below(d, n, j) && NotAbove(d, o, i) && Below(a, o, i) && NotAbove(a, n, j)
    && Apart(d, a) && Apart(a, d) && Ordered(d) && Ordered(a)
  }

  lemma DiffStart(o: seq<PathObject>, n: seq<PathObject>)
    ensures DiffAt(o, n, 0, 0, [], [], multiset{})
  {
  }

  lemma DiffSwap(o: seq<PathObject>, n: seq<PathObject>, i: nat, j: nat, d: seq<PathObject>, a: seq<PathObject>,
                 c: multiset<PathObject>)
    requires DiffAt(o, n, i, j, d, a, c)
    ensures DiffAt(n, o, j, i, a, d, c)
  {
  }

  /** The smaller front entry is on one side only. */
  lemma TakeFront(o: seq<PathObject>, n: seq<PathObject>, i: nat, j: nat, d: seq<PathObject>, a: seq<PathObject>,
                  c: multiset<PathObject>)
    requires Ordered(o) && Ordered(n) && DiffAt(o, n, i, j, d, a, c)
    requires i < |o| && (j == |n| || LessThan(o[i], n[j]))
    ensures DiffAt(o, n, i + 1, j, d + [o[i]], a, c)
  {
    hide LessThan, StringLess;
    var x := o[i];
    assert o[..i+1] == o[..i] + [x];
    TakeFrontOrder(o, n, i, j, d, a);
  }

  lemma TakeFrontOrder(o: seq<PathObject>, n: seq<PathObject>, i: nat, j: nat, d: seq<PathObject>, a: seq<PathObject>)
    requires Ordered(o) && Ordered(n) && i < |o| && j <= |n| && (j == |n| || LessThan(o[i], n[j]))
    requires Below(d, n, j) && NotAbove(d, o, i) && Below(a, o, i) && NotAbove(a, n, j) && Apart(d, a) && Ordered(d)
    ensures var d' := d + [o[i]];
            && Below(d', n, j) && NotAbove(d', o, i + 1) && Below(a, o, i + 1) && Ordered(d')
            && Apart(d', a) && Apart(a, d')
  {
    hide LessThan, StringLess;
    BelowSuffix(o[i], n, j);
    OrderedExtend(d, o[i]);
    if o[i] in a {
      Compare(o[i], o[i], o[i]);
    }
  }

  /** Equal front entries are shared. */
  lemma SkipFront(o: seq<PathObject>, n: seq<PathObject>, i: nat, j: nat, d: seq<PathObject>, a: seq<PathObject>,
                  c: multiset<PathObject>)
    requires DiffAt(o, n, i, j, d, a, c) && i < |o| && j < |n| && o[i] == n[j]
    ensures DiffAt(o, n, i + 1, j + 1, d, a, c + multiset{o[i]})
  {
    hide LessThan, StringLess, Ordered;
    assert o[..i+1] == o[..i] + [o[i]] && n[..j+1] == n[..j] + [n[j]];
  }

  lemma DiffEnd(o: seq<PathObject>, n: seq<PathObject>, d: seq<PathObject>, a: seq<PathObject>, c: multiset<PathObject>)
    requires Ordered(o) && Ordered(n) && DiffAt(o, n, |o|, |n|, d, a, c)
    ensures multiset(d) == multiset(o) - multiset(n) && multiset(a) == multiset(n) - multiset(o)
    ensures d == Minus(o, multiset(n)) && a == Minus(n, multiset(o))
  {
    hide LessThan, StringLess, Ordered;
    assert o[..|o|] == o && n[..|n|] == n;
    CommonPart(o, n, d, a, c);
    OrderedDifference(o, n, d);
    OrderedDifference(n, o, a);
  }

  /** `pathListDiff` is an exact multiset difference, both ways, with sorted outcomes. */
  method PathListDiff(o: seq<PathObject>, n: seq<PathObject>)
    returns (toDelete: seq<PathObject>, toAdd: seq<PathObject>)
    requires Ordered(o) && Ordered(n)
    ensures multiset(toDelete) == multiset(o) - multiset(n)
    ensures multiset(toAdd) == multiset(n) - multiset(o)
    ensures toDelete == Minus(o, multiset(n)) && Ordered(toDelete)
    ensures toAdd == Minus(n, multiset(o)) && Ordered(toAdd)
  {
    hide LessThan, StringLess, DiffAt, Ordered;
    toDelete, toAdd := [], [];
    DiffStart(o, n);
    var oIdx, nIdx := 0, 0;
    ghost var common: multiset<PathObject> := multiset{};
    while !(oIdx == |o| && nIdx == |n|)
      invariant 0 <= oIdx <= |o| && 0 <= nIdx <= |n|
      invariant DiffAt(o, n, oIdx, nIdx, toDelete, toAdd, common)
      decreases |o| - oIdx + |n| - nIdx
    {
      DiffSwap(o, n, oIdx, nIdx, toDelete, toAdd, common);
      if nIdx == |n| {
        TakeFront(o, n, oIdx, nIdx, toDelete, toAdd, common);
        toDelete, oIdx := toDelete + [o[oIdx]], oIdx + 1;
      } else if oIdx == |o| {
        TakeFront(n, o, nIdx, oIdx, toAdd, toDelete, common);
        toAdd, nIdx := toAdd + [n[nIdx]], nIdx + 1;
        DiffSwap(n, o, nIdx, oIdx, toAdd, toDelete, common);
      } else if o[oIdx] == n[nIdx] {
        SkipFront(o, n, oIdx, nIdx, toDelete, toAdd, common);
        common := common + multiset{o[oIdx]};
        oIdx, nIdx := oIdx + 1, nIdx + 1;
      } else if LessThan(o[oIdx], n[nIdx]) {
        TakeFront(o, n, oIdx, nIdx, toDelete, toAdd, common);
        toDelete, oIdx := toDelete + [o[oIdx]], oIdx + 1;
      } else {
        Compare(o[oIdx], n[nIdx], n[nIdx]);
        TakeFront(n, o, nIdx, oIdx, toAdd, toDelete, common);
        toAdd, nIdx := toAdd + [n[nIdx]], nIdx + 1;
        DiffSwap(n, o, nIdx, oIdx, toAdd, toDelete, common);
      }
    }
    DiffEnd(o, n, toDelete, toAdd, common);
    MinusOrdered(o, multiset(n));
    MinusOrdered(n, multiset(o));
  }

  lemma CommonPart(o: seq<PathObject>, n: seq<PathObject>, d: seq<PathObject>, a: seq<PathObject>,
                   c: multiset<PathObject>)
    requires multiset(o) == multiset(d) + c && multiset(n) == multiset(a) + c
    requires Apart(d, a)
    ensures multiset(d) == multiset(o) - multiset(n) && multiset(a) == multiset(n) - multiset(o)
  {
    forall x
      ensures multiset(d)[x] == 0 || multiset(a)[x] == 0
    {
      assert x in d <==> x in multiset(d);
      assert x in a <==> x in multiset(a);
    }
  }

  lemma OrderedDifference(s: seq<PathObject>, t: seq<PathObject>, d: seq<PathObject>)
    requires Ordered(s) && Ordered(d) && multiset(d) == multiset(s) - multiset(t)
    ensures d == Minus(s, multiset(t))
  {
    hide LessThan, StringLess;
    LessThanIsStrictTotalOrder();
    MinusOrdered(s, multiset(t));
    SortedUnique(LessThan, d, Minus(s, multiset(t)));
  }

  lemma OrderedExtend(s: seq<PathObject>, x: PathObject)
    requires Ordered(s) && forall y | y in s :: !LessThan(x, y)
    ensures Ordered(s + [x])
  {
  }

  lemma BelowSuffix(x: PathObject, s: seq<PathObject>, k: nat)
    requires Ordered(s) && k <= |s|
    requires k == |s| || LessThan(x, s[k])
    ensures forall j | k <= j < |s| :: LessThan(x, s[j])
  {
    forall j | k <= j < |s|
      ensures LessThan(x, s[j])
    {
      Compare(x, s[k], s[j]);
    }
  }

  /** Where the loop of `deletePaths` is: `seen` entries are done and `kept` is what stays of them, `rest` are the
      others, and the first `d` entries to delete are all behind. */
  ghost predicate DeletingAt(paths: seq<PathObject>, del: seq<PathObject>, seen: nat, d: nat, kept: seq<PathObject>,
                             rest: seq<PathObject>) {
    && seen <= |paths| && d <= |del|
    && kept == Without(paths[..seen], del) && rest == paths[seen..]
    && Below(del[..d], paths, seen)
  }

  lemma DeleteStart(paths: seq<PathObject>, del: seq<PathObject>)
    ensures DeletingAt(paths, del, 0, 0, [], paths)
  {
  }

  lemma DeleteOne(paths: seq<PathObject>, del: seq<PathObject>, seen: nat, d: nat, kept: seq<PathObject>,
                  rest: seq<PathObject>)
    requires DeletingAt(paths, del, seen, d, kept, rest) && rest != [] && d < |del| && rest[0] == del[d]
    ensures DeletingAt(paths, del, seen + 1, d, kept, rest[1..])
  {
    hide LessThan, StringLess;
    assert paths[..seen+1] == paths[..seen] + [paths[seen]];
    WithoutConcat(paths[..seen], [paths[seen]], del);
  }

  lemma KeepOne(paths: seq<PathObject>, del: seq<PathObject>, seen: nat, d: nat, kept: seq<PathObject>,
                rest: seq<PathObject>)
    requires Ordered(del) && DeletingAt(paths, del, seen, d, kept, rest) && rest != [] && d < |del|
             && LessThan(rest[0], del[d])
    ensures DeletingAt(paths, del, seen + 1, d, kept + [rest[0]], rest[1..])
  {
    hide LessThan, StringLess;
    var w := paths[seen];
    forall i | 0 <= i < |del|
      ensures del[i] != w
    {
      Compare(w, w, w);
      if i < d {
        assert del[i] in del[..d];
      } else {
        BelowSuffix(w, del, d);
      }
    }
    assert paths[..seen+1] == paths[..seen] + [w];
    WithoutConcat(paths[..seen], [w], del);
    WithoutNone([w], del);
  }

  lemma SkipOne(paths: seq<PathObject>, del: seq<PathObject>, seen: nat, d: nat, kept: seq<PathObject>,
                rest: seq<PathObject>)
    requires Ordered(paths) && DeletingAt(paths, del, seen, d, kept, rest) && rest != [] && d < |del|
    requires rest[0] != del[d] && !LessThan(rest[0], del[d])
    ensures DeletingAt(paths, del, seen, d + 1, kept, rest)
  {
    hide LessThan, StringLess, Without;
    Compare(del[d], paths[seen], paths[seen]);
    BelowSuffix(del[d], paths, seen);
    assert del[..d+1] == del[..d] + [del[d]];
  }

  lemma DeleteEnd(paths: seq<PathObject>, del: seq<PathObject>, seen: nat, d: nat, kept: seq<PathObject>,
                  rest: seq<PathObject>)
    requires DeletingAt(paths, del, seen, d, kept, rest) && (d == |del| || rest == [])
    ensures Without(paths, del) == kept + rest
  {
    hide LessThan, StringLess;
    assert paths == paths[..seen] + paths[seen..];
    WithoutConcat(paths[..seen], paths[seen..], del);
    if d == |del| {
      assert del[..d] == del;
      forall x | x in paths[seen..]
        ensures x !in del
      {
        var i :| seen <= i < |paths| && paths[i] == x;
        Compare(x, x, x);
      }
    }
    WithoutNone(paths[seen..], del);
  }

  /** The loop of `deletePaths`: the working copy shrinks while the indices advance. */
  method DeleteSorted(paths: seq<PathObject>, toDelete: seq<PathObject>) returns (workingCopy: seq<PathObject>)
    requires Ordered(paths) && Ordered(toDelete)
    ensures workingCopy == Without(paths, toDelete)
  {
    hide *;
    workingCopy := paths;
    var wIdx, dIdx := 0, 0;
    ghost var seen := 0;
    DeleteStart(paths, toDelete);
    assert paths[..0] == [];
    while dIdx != |toDelete| && wIdx != |workingCopy|
      invariant 0 <= wIdx <= |workingCopy| && 0 <= dIdx <= |toDelete| && 0 <= seen
      invariant DeletingAt(paths, toDelete, seen, dIdx, workingCopy[..wIdx], workingCopy[wIdx..])
      decreases |workingCopy| - wIdx + |toDelete| - dIdx
    {
      ghost var kept, rest := workingCopy[..wIdx], workingCopy[wIdx..];
      if workingCopy[wIdx] == toDelete[dIdx] {
        DeleteOne(paths, toDelete, seen, dIdx, kept, rest);
        workingCopy := workingCopy[..wIdx] + workingCopy[wIdx+1..];
        seen := seen + 1;
        assert workingCopy[..wIdx] == kept && workingCopy[wIdx..] == rest[1..];
      } else if LessThan(workingCopy[wIdx], toDelete[dIdx]) {
        KeepOne(paths, toDelete, seen, dIdx, kept, rest);
        wIdx, seen := wIdx + 1, seen + 1;
        assert workingCopy[..wIdx] == kept + [rest[0]] && workingCopy[wIdx..] == rest[1..];
      } else {
        SkipOne(paths, toDelete, seen, dIdx, kept, rest);
        dIdx := dIdx + 1;
      }
    }
    DeleteEnd(paths, toDelete, seen, dIdx, workingCopy[..wIdx], workingCopy[wIdx..]);
    assert workingCopy == workingCopy[..wIdx] + workingCopy[wIdx..];
  }

  /** Length of the longest common prefix. */
  function CommonPrefix(e: seq<PathObject>, a: seq<PathObject>): (k: nat)
    ensures k <= |e| && k <= |a| && e[..k] == a[..k]
    ensures k == |e| || k == |a| || e[k] != a[k]
  {
    if e == [] || a == [] || e[0] != a[0] then 0 else
      var k := CommonPrefix(e[1..], a[1..]);
      assert e[..k+1] == [e[0]] + e[1..][..k] && a[..k+1] == [a[0]] + a[1..][..k];
      k + 1
  }

  /** What the scan of `addNewFrom` produces: it drops only the longest common prefix. */
  function Merged(existing: seq<PathObject>, added: seq<PathObject>): seq<PathObject> {
    Sort(LessThan, existing + added[CommonPrefix(existing, added)..])
  }

  lemma SortOrdered(s: seq<PathObject>)
    ensures Ordered(Sort(LessThan, s))
  {
    LessThanIsStrictTotalOrder();
    SortSorted(LessThan, s);
  }

  /** Where the scan of `addNewFrom` is: `oIdx` entries of `a` are done, and the existing entries are looked at
      from `eIdx` on. Past the common prefix no further entry of `a` is found, because the index into the
      existing entries has either run off the end or got stuck before a smaller one. */
  ghost predicate ScanAt(e: seq<PathObject>, a: seq<PathObject>, oIdx: nat, eIdx: nat) {
    var k := CommonPrefix(e, a);
    && oIdx <= |a| && eIdx <= |e|
    && (oIdx < k ==> eIdx == oIdx)
    && (oIdx == k ==> k <= eIdx)
    && (oIdx == k < eIdx ==> k < |a| && forall i | eIdx <= i < |e| :: LessThan(a[k], e[i]))
    && (oIdx > k ==> eIdx == |e| || forall o | oIdx <= o < |a| :: LessThan(e[eIdx], a[o]))
  }

  /** What the scan has appended when `oIdx` entries of `a` are done. */
  ghost function Appended(e: seq<PathObject>, a: seq<PathObject>, oIdx: nat): seq<PathObject>
    requires oIdx <= |a|
  {
    var k := CommonPrefix(e, a);
    if oIdx <= k then [] else a[k..oIdx]
  }

  lemma PrefixAgrees(e: seq<PathObject>, a: seq<PathObject>, i: nat)
    ensures i < CommonPrefix(e, a) ==> e[i] == a[i]
  {
    hide LessThan, StringLess;
    var k := CommonPrefix(e, a);
    assert i < k ==> e[..k][i] == e[i] && a[..k][i] == a[i];
  }

  lemma ScanFound(e: seq<PathObject>, a: seq<PathObject>, oIdx: nat, eIdx: nat)
    requires Ordered(e) && Ordered(a) && ScanAt(e, a, oIdx, eIdx) && oIdx < |a| && eIdx < |e| && a[oIdx] == e[eIdx]
    ensures ScanAt(e, a, oIdx + 1, eIdx + 1) && Appended(e, a, oIdx + 1) == Appended(e, a, oIdx)
  {
    hide LessThan, StringLess;
    Compare(a[oIdx], e[eIdx], e[eIdx]);
  }

  lemma ScanSmaller(e: seq<PathObject>, a: seq<PathObject>, oIdx: nat, eIdx: nat)
    requires Ordered(e) && Ordered(a) && ScanAt(e, a, oIdx, eIdx) && oIdx < |a| && eIdx < |e|
    requires a[oIdx] != e[eIdx] && LessThan(a[oIdx], e[eIdx])
    ensures ScanAt(e, a, oIdx, eIdx + 1)
  {
    hide LessThan, StringLess;
    PrefixAgrees(e, a, oIdx);
    Compare(a[oIdx], e[eIdx], e[eIdx]);
    BelowSuffix(a[oIdx], e, eIdx);
  }

  lemma ScanAppend(e: seq<PathObject>, a: seq<PathObject>, oIdx: nat, eIdx: nat)
    requires Ordered(e) && Ordered(a) && ScanAt(e, a, oIdx, eIdx) && oIdx < |a|
    requires eIdx == |e| || (a[oIdx] != e[eIdx] && !LessThan(a[oIdx], e[eIdx]))
    ensures ScanAt(e, a, oIdx + 1, eIdx) && Appended(e, a, oIdx + 1) == Appended(e, a, oIdx) + [a[oIdx]]
  {
    hide LessThan, StringLess, CommonPrefix;
    var k := CommonPrefix(e, a);
    PrefixAgrees(e, a, oIdx);
    if eIdx < |e| {
      Compare(e[eIdx], a[oIdx], a[oIdx]);
      BelowSuffix(e[eIdx], a, oIdx);
    }
    hide Ordered;
    assert k <= oIdx && ScanAt(e, a, oIdx + 1, eIdx);
    hide ScanAt;
    SliceOneMore(a, k, oIdx);
  }

  lemma SliceOneMore(s: seq<PathObject>, k: nat, i: nat)
    requires k <= i < |s|
    ensures s[k..i+1] == s[k..i] + [s[i]]
  {
  }

  /** The scan of `addNewFrom`: everything past the common prefix is appended unchecked. */
  method MergeSorted(existing: seq<PathObject>, added: seq<PathObject>) returns (paths: seq<PathObject>)
    requires Ordered(existing) && Ordered(added)
    ensures paths == Merged(existing, added)
    ensures Ordered(paths)
  {
    hide LessThan, StringLess, CommonPrefix, ScanAt, Appended;
    paths := existing;
    var oIdx, eIdx := 0, 0;
    ScanStart(existing, added);
    while oIdx != |added|
      invariant 0 <= oIdx <= |added| && 0 <= eIdx <= |existing| && ScanAt(existing, added, oIdx, eIdx)
      invariant paths == existing + Appended(existing, added, oIdx)
      decreases |added| - oIdx + |existing| - eIdx
    {
      if eIdx == |existing| {
        ScanAppend(existing, added, oIdx, eIdx);
        paths, oIdx := paths + [added[oIdx]], oIdx + 1;
      } else if added[oIdx] == existing[eIdx] {
        ScanFound(existing, added, oIdx, eIdx);
        oIdx, eIdx := oIdx + 1, eIdx + 1;
      } else if LessThan(added[oIdx], existing[eIdx]) {
        ScanSmaller(existing, added, oIdx, eIdx);
        eIdx := eIdx + 1;
      } else {
        ScanAppend(existing, added, oIdx, eIdx);
        paths, oIdx := paths + [added[oIdx]], oIdx + 1;
      }
    }
    ScanEnd(existing, added);
    SortOrdered(paths);
    paths := Sort(LessThan, paths);
  }

  lemma ScanStart(e: seq<PathObject>, a: seq<PathObject>)
    ensures ScanAt(e, a, 0, 0) && Appended(e, a, 0) == []
  {
  }

  lemma ScanEnd(e: seq<PathObject>, a: seq<PathObject>)
    ensures Appended(e, a, |a|) == a[CommonPrefix(e, a)..]
  {
  }
}
