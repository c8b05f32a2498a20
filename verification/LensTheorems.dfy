/** What `patch(a, diff(a, b))` achieves, and exactly when. */
module LensTheorems {
  import opened Dom
  import opened Lens
  import opened Sorting

  // ---------- structure without identity

  datatype Label =
    | ElementLabel(localName: string, attributes: map<string, string>)
    | TextLabel(data: string)
    | CommentLabel(data: string)
    | OtherLabel(nodeType: int, data: string)

  datatype Shape = Shape(what: Label, kids: seq<Shape>)

  function AttributeMap(s: seq<Attribute>): map<string, string> {
    if s == [] then map[] else AttributeMap(s[1..])[s[0].name := s[0].value]
  }

  function LabelOf(p: Payload): Label {
    match p
    case Element(l, a) => ElementLabel(l, AttributeMap(a))
    case Text(d) => TextLabel(d)
    case Comment(d) => CommentLabel(d)
    case Other(t, d) => OtherLabel(t, d)
  }

  function ShapeOf(t: Tree): Shape
    decreases t, 1
  {
    Shape(LabelOf(t.payload), ShapesOf(t.kids))
  }

  function ShapesOf(ts: seq<Tree>): seq<Shape>
    decreases ts, 0
  {
    if ts == [] then [] else [ShapeOf(ts[0])] + ShapesOf(ts[1..])
  }

  /** In every element the attributes have different names. */
  ghost predicate NamesOk(t: Tree)
    decreases t, 1
  {
    (t.payload.Element? ==> DistinctNames(t.payload.attributes)) && AllNamesOk(t.kids)
  }

  ghost predicate AllNamesOk(ts: seq<Tree>)
    decreases ts, 0
  {
    ts == [] || (NamesOk(ts[0]) && AllNamesOk(ts[1..]))
  }

  // ---------- attributes

  /** Every attribute that only the old node has is one `diffa` can see to be gone, and an attribute it can
      neither set nor remove is the same on both sides. */
  ghost predicate AttributesSafe(a: seq<Attribute>, b: seq<Attribute>) {
    && (forall x | x in a && Inherited(x.name) && !Unassignable(x.name) :: Owns(b, x.name))
    && (forall x | x in a && Unassignable(x.name) :: x in b)
    && (forall x | x in b && Unassignable(x.name) :: x in a)
  }

  lemma {:induction false} MapHasAttributes(s: seq<Attribute>)
    requires DistinctNames(s)
    ensures forall x :: x in s <==> x.name in AttributeMap(s) && AttributeMap(s)[x.name] == x.value
    ensures forall k :: k in AttributeMap(s) <==> exists x :: x in s && x.name == k
  {
    if s != [] {
      MapHasAttributes(s[1..]);
      forall x | x in s[1..]
        ensures x.name != s[0].name
      {
      }
      assert s == [s[0]] + s[1..];
      forall k
        ensures k in AttributeMap(s) <==> exists x :: x in s && x.name == k
      {
        if k == s[0].name {
          assert s[0] in s;
        }
      }
    }
  }

  lemma MapOfWith(s: seq<Attribute>, k: string, v: string)
    requires DistinctNames(s)
    ensures AttributeMap(WithAttribute(s, k, v)) == AttributeMap(s)[k := v]
    ensures DistinctNames(WithAttribute(s, k, v))
    ensures forall x | x in WithAttribute(s, k, v) :: x.name == k || x in s
  {
    hide *;
    MapWith(s, k, v);
    DistinctWith(s, k, v);
  }

  lemma {:induction false} MapWith(s: seq<Attribute>, k: string, v: string)
    ensures AttributeMap(WithAttribute(s, k, v)) == AttributeMap(s)[k := v]
  {
    if s == [] {
      MapOfCons(Attribute(k, v), []);
    } else {
      assert s == [s[0]] + s[1..];
      MapOfCons(s[0], s[1..]);
      if s[0].name == k {
        MapOfCons(Attribute(k, v), s[1..]);
      } else {
        MapWith(s[1..], k, v);
        MapOfCons(s[0], WithAttribute(s[1..], k, v));
      }
      hide AttributeMap;
    }
  }

  lemma {:induction false} DistinctWith(s: seq<Attribute>, k: string, v: string)
    requires DistinctNames(s)
    ensures DistinctNames(WithAttribute(s, k, v))
    ensures forall x | x in WithAttribute(s, k, v) :: x.name == k || x in s
  {
    if s != [] && s[0].name != k {
      DistinctWith(s[1..], k, v);
      var r := WithAttribute(s[1..], k, v);
      forall j | 0 <= j < |r|
        ensures r[j].name != s[0].name
      {
        assert r[j] in r;
      }
    }
  }

  lemma FirstNameOnlyFirst(s: seq<Attribute>)
    requires s != [] && DistinctNames(s)
    ensures s[0].name !in AttributeMap(s[1..]) && DistinctNames(s[1..])
  {
    MapHasAttributes(s[1..]);
  }

  lemma {:induction false} MapOfWithout(s: seq<Attribute>, k: string)
    requires DistinctNames(s)
    ensures AttributeMap(WithoutAttribute(s, k)) == AttributeMap(s) - {k}
    ensures DistinctNames(WithoutAttribute(s, k))
    ensures forall x | x in WithoutAttribute(s, k) :: x in s
  {
    if s != [] {
      FirstNameOnlyFirst(s);
      if s[0].name == k {
        assert AttributeMap(s[1..]) == AttributeMap(s) - {k};
      } else {
        MapOfWithout(s[1..], k);
        var r := WithoutAttribute(s[1..], k);
        MapOfCons(s[0], r);
        hide AttributeMap;
        DistinctCons(s, r);
        MapOfCons(s[0], s[1..]);
        assert [s[0]] + s[1..] == s;
      }
    }
  }

  lemma MapOfCons(x: Attribute, s: seq<Attribute>)
    ensures AttributeMap([x] + s) == AttributeMap(s)[x.name := x.value]
  {
    assert ([x] + s)[1..] == s;
  }

  lemma DistinctCons(s: seq<Attribute>, r: seq<Attribute>)
    requires s != [] && DistinctNames(s) && DistinctNames(r) && forall x | x in r :: x in s[1..]
    ensures DistinctNames([s[0]] + r) && forall x | x in [s[0]] + r :: x in s
  {
    forall j | 0 <= j < |r|
      ensures r[j].name != s[0].name
    {
      assert r[j] in s[1..];
    }
  }

  ghost function RemovedNames(from: seq<Attribute>, b: seq<Attribute>): set<string> {
    set x | x in from && ToRemove(x, b) :: x.name
  }

  lemma {:induction false} MapOfRemoved(s: seq<Attribute>, from: seq<Attribute>, b: seq<Attribute>)
    requires DistinctNames(s)
    ensures DistinctNames(Removed(s, from, b))
    ensures AttributeMap(Removed(s, from, b)) == AttributeMap(s) - RemovedNames(from, b)
    decreases from
  {
    if from != [] {
      assert from == [from[0]] + from[1..];
      hide ToRemove;
      if ToRemove(from[0], b) {
        MapOfWithout(s, from[0].name);
        MapOfRemoved(WithoutAttribute(s, from[0].name), from[1..], b);
        assert RemovedNames(from, b) == {from[0].name} + RemovedNames(from[1..], b);
      } else {
        MapOfRemoved(s, from[1..], b);
        assert RemovedNames(from, b) == RemovedNames(from[1..], b);
      }
    }
  }

  function SetMap(from: seq<Attribute>, a: seq<Attribute>): map<string, string> {
    if from == [] then map[]
    else (if ToSet(from[0], a) then map[from[0].name := from[0].value] else map[]) + SetMap(from[1..], a)
  }

  lemma {:induction false} MapOfAssigned(s: seq<Attribute>, from: seq<Attribute>, a: seq<Attribute>)
    requires DistinctNames(s)
    ensures DistinctNames(Assigned(s, from, a))
    ensures AttributeMap(Assigned(s, from, a)) == AttributeMap(s) + SetMap(from, a)
    decreases from
  {
    if from == [] {
      assert AttributeMap(s) + map[] == AttributeMap(s);
    } else {
      hide ToSet;
      if ToSet(from[0], a) {
        MapOfWith(s, from[0].name, from[0].value);
        MapOfAssigned(WithAttribute(s, from[0].name, from[0].value), from[1..], a);
        UpdateThenAdd(AttributeMap(s), from[0].name, from[0].value, SetMap(from[1..], a));
      } else {
        MapOfAssigned(s, from[1..], a);
        assert map[] + SetMap(from[1..], a) == SetMap(from[1..], a);
      }
      hide AttributeMap;
    }
  }

  lemma UpdateThenAdd(m: map<string, string>, k: string, v: string, n: map<string, string>)
    ensures m[k := v] + n == m + (map[k := v] + n)
  {
  }

  lemma {:induction false} SetMapHas(from: seq<Attribute>, a: seq<Attribute>)
    requires DistinctNames(from)
    ensures forall k ::
              k in SetMap(from, a) <==> k in AttributeMap(from) && ToSet(Attribute(k, AttributeMap(from)[k]), a)
    ensures forall k | k in SetMap(from, a) :: SetMap(from, a)[k] == AttributeMap(from)[k]
  {
    if from != [] {
      hide ToSet;
      SetMapHas(from[1..], a);
      MapHasAttributes(from[1..]);
      assert from[0] == Attribute(from[0].name, from[0].value);
      forall k | k in AttributeMap(from[1..])
        ensures k != from[0].name
      {
        var x :| x in from[1..] && x.name == k;
      }
    }
  }

  lemma {:induction false} PickedElements(s: seq<Attribute>)
    ensures multiset(Picked(s, true)) + multiset(Picked(s, false)) == multiset(s)
  {
    if s != [] {
      PickedElements(s[1..]);
      assert s == [s[0]] + s[1..];
      hide IsIndex;
    }
  }

  /** Enumerating the attributes changes their order only. */
  lemma EnumeratedSame(s: seq<Attribute>)
    requires DistinctNames(s)
    ensures DistinctNames(Enumerated(s)) && AttributeMap(Enumerated(s)) == AttributeMap(s)
    ensures forall x :: x in Enumerated(s) <==> x in s
  {
    PickedElements(s);
    var e := Enumerated(s);
    assert multiset(e) == multiset(s);
    hide Enumerated, AttributeMap;
    SameElements(e, s);
    DistinctElements(s, e);
    SameAttributesSameMap(e, s);
  }

  lemma DistinctElements(s: seq<Attribute>, e: seq<Attribute>)
    requires DistinctNames(s) && multiset(e) == multiset(s)
    ensures DistinctNames(e)
  {
    DistinctMultiplicity(s);
    SameElements(e, s);
    forall i, j | 0 <= i < j < |e|
      ensures e[i].name != e[j].name
    {
      RepeatedEntry(e, i, j);
      assert e[i] in s && e[j] in s;
    }
  }

  /** What patching makes of one name. */
  lemma PatchedName(a: seq<Attribute>, b: seq<Attribute>, k: string)
    requires DistinctNames(a) && DistinctNames(b)
    ensures var r, ma, mb := AttributeMap(PatchedAttributes(a, b)), AttributeMap(a), AttributeMap(b);
            && (k in r <==> (k in mb && !Unassignable(k)) || (k in ma && (Unassignable(k) || k in mb || Inherited(k))))
            && (k in r ==> r[k] == if k in mb && !Unassignable(k) then mb[k] else ma[k])
  {
    EnumeratedSame(a);
    EnumeratedSame(b);
    hide Enumerated;
    MapOfRemoved(a, Enumerated(a), b);
    MapOfAssigned(Removed(a, Enumerated(a), b), Enumerated(b), a);
    SetMapHas(Enumerated(b), a);
    assert RemovedNames(Enumerated(a), b) == RemovedNames(a, b);
    MapHasAttributes(a);
    MapHasAttributes(b);
    assert Owns(b, k) <==> !Unassignable(k) && k in AttributeMap(b);
    hide Inherited, DistinctNames, Unassignable;
    RemovedName(a, b, k);
    if k in AttributeMap(b) {
      SetName(a, b, k);
    }
  }

  lemma RemovedName(a: seq<Attribute>, b: seq<Attribute>, k: string)
    requires DistinctNames(a)
    ensures k in RemovedNames(a, b) <==> k in AttributeMap(a) && !Unassignable(k) && !Owns(b, k) && !Inherited(k)
  {
    hide Inherited, Unassignable, Owns;
    MapHasAttributes(a);
    if k in AttributeMap(a) {
      var x :| x in a && x.name == k;
      assert ToRemove(x, b) <==> !Unassignable(k) && !Owns(b, k) && !Inherited(k);
    }
  }

  lemma SetName(a: seq<Attribute>, b: seq<Attribute>, k: string)
    requires DistinctNames(a) && DistinctNames(b) && k in AttributeMap(b)
    ensures ToSet(Attribute(k, AttributeMap(b)[k]), a) <==>
              !Unassignable(k) && !(k in AttributeMap(a) && AttributeMap(a)[k] == AttributeMap(b)[k])
  {
    MapHasAttributes(a);
    assert Attribute(k, AttributeMap(b)[k]) in a <==> k in AttributeMap(a) && AttributeMap(a)[k] == AttributeMap(b)[k];
  }

  /** Patched attributes are the target's exactly when the names are safe. */
  lemma PatchedAttributesIff(a: seq<Attribute>, b: seq<Attribute>)
    requires DistinctNames(a) && DistinctNames(b)
    ensures AttributeMap(PatchedAttributes(a, b)) == AttributeMap(b) <==> AttributesSafe(a, b)
  {
    var r, ma, mb := AttributeMap(PatchedAttributes(a, b)), AttributeMap(a), AttributeMap(b);
    MapHasAttributes(a);
    MapHasAttributes(b);
    hide Inherited, DistinctNames, AttributeMap, PatchedAttributes;
    if AttributesSafe(a, b) {
      forall k
        ensures k in r <==> k in mb
        ensures k in r ==> r[k] == mb[k]
      {
        PatchedName(a, b, k);
        SafeName(a, b, k);
      }
    }
    if r == mb {
      forall x | x in a && Inherited(x.name) && !Unassignable(x.name)
        ensures Owns(b, x.name)
      {
        PatchedName(a, b, x.name);
      }
      forall x: Attribute | Unassignable(x.name)
        ensures x in a <==> x in b
      {
        PatchedName(a, b, x.name);
      }
    }
  }

  lemma SafeName(a: seq<Attribute>, b: seq<Attribute>, k: string)
    requires DistinctNames(a) && DistinctNames(b) && AttributesSafe(a, b)
    ensures Unassignable(k) ==> (k in AttributeMap(a) <==> k in AttributeMap(b))
    ensures Unassignable(k) && k in AttributeMap(a) && k in AttributeMap(b) ==> AttributeMap(a)[k] == AttributeMap(b)[k]
    ensures !Unassignable(k) && Inherited(k) && k in AttributeMap(a) ==> k in AttributeMap(b)
  {
    hide Inherited;
    MapHasAttributes(a);
    MapHasAttributes(b);
    if k in AttributeMap(a) {
      var x :| x in a && x.name == k;
    }
    if k in AttributeMap(b) {
      var x :| x in b && x.name == k;
    }
  }

  // ---------- trees

  /** Wherever `diff` compares two elements attribute by attribute, the names are safe. */
  ghost predicate Safe(a: Tree, b: Tree)
    decreases b, 1
  {
    Alike(a.payload, b.payload) ==>
      && (a.payload.Element? ==> AttributesSafe(a.payload.attributes, b.payload.attributes))
      && KidsSafe(a.kids, b.kids)
  }

  ghost predicate KidsSafe(a: seq<Tree>, b: seq<Tree>)
    decreases b, 0
  {
    a == [] || b == [] || (Safe(a[0], b[0]) && KidsSafe(a[1..], b[1..]))
  }

  lemma PatchedLabelIff(a: Payload, b: Payload)
    requires Alike(a, b)
    requires a.Element? ==> DistinctNames(a.attributes) && DistinctNames(b.attributes)
    ensures LabelOf(PatchedPayload(a, b)) == LabelOf(b) <==> (a.Element? ==> AttributesSafe(a.attributes, b.attributes))
  {
    hide AttributesSafe;
    if a.Element? {
      PatchedAttributesIff(a.attributes, b.attributes);
    }
  }

  lemma {:induction false} PatchedNodeIff(a: Tree, b: Tree)
    requires NamesOk(a) && NamesOk(b)
    ensures ShapeOf(PatchedNode(a, b)) == ShapeOf(b) <==> Safe(a, b)
    decreases b, 1
  {
    if Alike(a.payload, b.payload) {
      PatchedLabelIff(a.payload, b.payload);
      PatchedKidsIff(a.kids, b.kids);
      hide PatchedPayload, LabelOf, AttributesSafe;
    }
  }

  lemma {:induction false} PatchedKidsIff(a: seq<Tree>, b: seq<Tree>)
    requires AllNamesOk(a) && AllNamesOk(b)
    ensures ShapesOf(PatchedKids(a, b)) == ShapesOf(b) <==> KidsSafe(a, b)
    decreases b, 0
  {
    if a != [] && b != [] {
      PatchedNodeIff(a[0], b[0]);
      PatchedKidsIff(a[1..], b[1..]);
      var c := PatchedKids(a, b);
      assert c[0] == PatchedNode(a[0], b[0]) && c[1..] == PatchedKids(a[1..], b[1..]);
      hide PatchedNode, PatchedKids, ShapeOf, Safe;
      ConsEqual(ShapeOf(c[0]), ShapesOf(c[1..]), ShapeOf(b[0]), ShapesOf(b[1..]));
    }
  }

  lemma ConsEqual<T>(x: T, s: seq<T>, y: T, t: seq<T>)
    ensures [x] + s == [y] + t <==> x == y && s == t
  {
    if [x] + s == [y] + t {
      assert x == ([x] + s)[0] && s == ([x] + s)[1..];
      assert y == ([y] + t)[0] && t == ([y] + t)[1..];
    }
  }

  /** `diff`, for two trees in the heap. */
  function Script(a: Tree, b: Tree): seq<Op> {
    KidsOps(a.node, a.kids, b.kids)
  }

  /** Two finite trees, in the heap, with no node in common. */
  ghost predicate TwoTrees(h: Heap, a: Tree, b: Tree) {
    && Holds(h, a) && Holds(h, b) && Distinct(a) && Distinct(b) && Nodes(a) !! Nodes(b)
    && WellFormed(a) && WellFormed(b) && CanHaveChildren(a.payload) && NamesOk(a) && NamesOk(b)
  }

  /** Diff, then patch: the script runs to its end without throwing; the root of `a` keeps its payload, its
      attributes and its parent; no node outside the two trees changes; and the children of `a` have become
      structurally equal to the original children of `b` exactly when the attribute names are safe. */
  lemma DiffThenPatch(h: Heap, a: Tree, b: Tree)
    requires TwoTrees(h, a, b)
    ensures RunOps(h, Script(a, b)).Some?
    ensures var h' := RunOps(h, Script(a, b)).value;
            var kids := PatchedKids(a.kids, b.kids);
            && Holds(h', Tree(a.node, a.payload, kids)) && h'[a.node].parent == h[a.node].parent
            && h'.Keys == h.Keys && (forall n | n in h && n !in Nodes(a) + Nodes(b) :: h'[n] == h[n])
            && (ShapesOf(kids) == ShapesOf(b.kids) <==> KidsSafe(a.kids, b.kids))
  {
    assert [] + Roots(a.kids) == Roots(a.kids);
    assert Lists(h, a.node, [], b.node, a.kids, b.kids);
    RunKidsOps(h, a.node, [], b.node, a.kids, b.kids);
    PatchedKidsIff(a.kids, b.kids);
    var kids := PatchedKids(a.kids, b.kids);
    assert [] + Roots(kids) == Roots(kids);
    hide Lists, KidsSafe, PatchedKids, ShapesOf, RunOps, KidsOps, NamesOk, WellFormed, Distinct;
  }

  lemma EnumeratedSmall(x: Attribute)
    ensures Enumerated([]) == [] && (!IsIndex(x.name) ==> Enumerated([x]) == [x])
  {
    assert [x][1..] == [];
    hide IsIndex;
    assert Sort(ByIndex, []) == [];
  }

  /** Where the names are not safe: an attribute named like a property every object inherits survives. */
  lemma InheritedNameSurvives(n: Node, m: Node)
    ensures var a := Tree(n, Element("p", [Attribute("constructor", "x")]), []);
            var b := Tree(m, Element("p", []), []);
            NodeOps(a, b) == [] && PatchedNode(a, b) == a && ShapeOf(a) != ShapeOf(b)
  {
    var x := Attribute("constructor", "x");
    var ab: seq<Attribute> := [];
    assert x.name[0] == 'c';
    EnumeratedSmall(x);
    assert [x][1..] == [];
    assert !ToRemove(x, ab);
    hide Enumerated;
    assert RemoveOps(n, [x], ab) == RemoveOps(n, [], ab) && Removed([x], [x], ab) == Removed([x], [], ab);
    assert "constructor" in AttributeMap([x]);
  }

  // ---------- the empty script

  /** Elements and texts only. */
  ghost predicate Plain(t: Tree)
    decreases t, 1
  {
    (t.payload.Element? || t.payload.Text?) && AllPlain(t.kids)
  }

  ghost predicate AllPlain(ts: seq<Tree>)
    decreases ts, 0
  {
    ts == [] || (Plain(ts[0]) && AllPlain(ts[1..]))
  }

  lemma {:induction false} RemoveOpsEmptyIff(n: Node, from: seq<Attribute>, b: seq<Attribute>)
    ensures RemoveOps(n, from, b) == [] <==> forall x | x in from :: !ToRemove(x, b)
  {
    hide ToRemove;
    if from != [] {
      RemoveOpsEmptyIff(n, from[1..], b);
      assert from == [from[0]] + from[1..];
    }
  }

  lemma {:induction false} SetOpsEmptyIff(n: Node, from: seq<Attribute>, a: seq<Attribute>)
    ensures SetOps(n, from, a) == [] <==> forall x | x in from :: !ToSet(x, a)
  {
    hide ToSet;
    if from != [] {
      SetOpsEmptyIff(n, from[1..], a);
      assert from == [from[0]] + from[1..];
    }
  }

  lemma AttributeOpsEmptyIff(n: Node, a: seq<Attribute>, b: seq<Attribute>)
    requires DistinctNames(a) && DistinctNames(b)
    ensures AttributeOps(n, a, b) == [] && AttributesSafe(a, b) <==> AttributeMap(a) == AttributeMap(b)
  {
    EnumeratedSame(a);
    EnumeratedSame(b);
    RemoveOpsEmptyIff(n, Enumerated(a), b);
    SetOpsEmptyIff(n, Enumerated(b), a);
    MapHasAttributes(a);
    MapHasAttributes(b);
    hide Inherited, DistinctNames, AttributeMap, RemoveOps, SetOps, Enumerated;
    if AttributeMap(a) == AttributeMap(b) {
      forall x
        ensures x in a <==> x in b
      {
      }
    }
    if AttributeOps(n, a, b) == [] && AttributesSafe(a, b) {
      SameAttributes(a, b);
      SameAttributesSameMap(a, b);
    }
  }

  lemma SameAttributesSameMap(a: seq<Attribute>, b: seq<Attribute>)
    requires DistinctNames(a) && DistinctNames(b) && forall x :: x in a <==> x in b
    ensures AttributeMap(a) == AttributeMap(b)
  {
    MapHasAttributes(a);
    MapHasAttributes(b);
  }

  lemma SameAttributes(a: seq<Attribute>, b: seq<Attribute>)
    requires DistinctNames(a) && DistinctNames(b) && AttributesSafe(a, b)
    requires (forall x | x in a :: !ToRemove(x, b)) && (forall x | x in b :: !ToSet(x, a))
    ensures forall x :: x in a <==> x in b
  {
  }

  lemma OwnOpsEmptyIff(n: Node, a: Payload, b: Payload)
    requires Alike(a, b) && (a.Element? ==> DistinctNames(a.attributes) && DistinctNames(b.attributes))
    ensures OwnOps(n, a, b) == [] && (a.Element? ==> AttributesSafe(a.attributes, b.attributes))
            <==> LabelOf(a) == LabelOf(b)
  {
    hide AttributesSafe, AttributeMap, AttributeOps;
    if a.Element? {
      AttributeOpsEmptyIff(n, a.attributes, b.attributes);
    }
  }

  lemma {:induction false} NodeOpsEmptyIff(a: Tree, b: Tree)
    requires Plain(a) && NamesOk(a) && NamesOk(b)
    ensures NodeOps(a, b) == [] && Safe(a, b) <==> ShapeOf(a) == ShapeOf(b)
    decreases b, 1
  {
    if Alike(a.payload, b.payload) {
      OwnOpsEmptyIff(a.node, a.payload, b.payload);
      KidsOpsEmptyIff(a.node, a.kids, b.kids);
      hide OwnOps, KidsOps, KidsSafe, ShapesOf, LabelOf, AttributesSafe;
      ConcatEmpty(OwnOps(a.node, a.payload, b.payload), KidsOps(a.node, a.kids, b.kids));
    } else {
      assert LabelOf(a.payload) != LabelOf(b.payload);
    }
  }

  lemma ConcatEmpty<T>(s: seq<T>, t: seq<T>)
    ensures s + t == [] <==> s == [] && t == []
  {
    if s != [] {
      assert (s + t)[0] == s[0];
    }
  }

  /** For comment-free trees the script is empty, with safe names, exactly when the children already agree. */
  lemma {:induction false} KidsOpsEmptyIff(n: Node, a: seq<Tree>, b: seq<Tree>)
    requires AllPlain(a) && AllNamesOk(a) && AllNamesOk(b)
    ensures KidsOps(n, a, b) == [] && KidsSafe(a, b) <==> ShapesOf(a) == ShapesOf(b)
    decreases b, 0
  {
    if b == [] {
      if a != [] {
        assert RemoveKids(n, a)[0] == Op.RemoveChild(n, a[0].node);
      }
    } else if a == [] {
      assert KidsOps(n, a, b)[0] == Op.AppendChild(n, b[0].node);
    } else {
      NodeOpsEmptyIff(a[0], b[0]);
      KidsOpsEmptyIff(n, a[1..], b[1..]);
      ConcatEmpty(NodeOps(a[0], b[0]), KidsOps(n, a[1..], b[1..]));
      ConsEqual(ShapeOf(a[0]), ShapesOf(a[1..]), ShapeOf(b[0]), ShapesOf(b[1..]));
      hide NodeOps, Safe, ShapeOf;
    }
  }

  // ---------- no operation touches a node that an earlier one took out

  function TakenOut(op: Op): set<Node> {
    match op
    case ReplaceNode(n, _) => {n}
    case RemoveChild(_, c) => {c}
    case _ => {}
  }

  function Mentioned(op: Op): set<Node> {
    match op
    case ReplaceNode(n, m) => {n, m}
    case RemoveChild(n, c) => {n, c}
    case AppendChild(n, c) => {n, c}
    case _ => {op.node}
  }

  ghost predicate Orderly(ops: seq<Op>) {
    forall i, j | 0 <= i < j < |ops| :: TakenOut(ops[i]) !! Mentioned(ops[j])
  }

  /** The script takes out nodes of `out` only, and mentions nodes of `all` only. */
  ghost predicate Within(ops: seq<Op>, out: set<Node>, all: set<Node>) {
    && (forall i | 0 <= i < |ops| :: TakenOut(ops[i]) <= out)
    && (forall i | 0 <= i < |ops| :: Mentioned(ops[i]) <= all)
  }

  lemma OrderlyConcat(s: seq<Op>, t: seq<Op>, outS: set<Node>, outT: set<Node>, allS: set<Node>, allT: set<Node>)
    requires Orderly(s) && Orderly(t) && Within(s, outS, allS) && Within(t, outT, allT) && outS !! allT
    ensures Orderly(s + t) && Within(s + t, outS + outT, allS + allT)
  {
    hide TakenOut, Mentioned;
    var r := s + t;
    forall i, j | 0 <= i < j < |r|
      ensures TakenOut(r[i]) !! Mentioned(r[j])
    {
      if i < |s| && |s| <= j {
        assert TakenOut(s[i]) <= outS && Mentioned(t[j - |s|]) <= allT;
      }
    }
  }

  lemma {:induction false} RemoveOpsOrderly(n: Node, from: seq<Attribute>, b: seq<Attribute>)
    ensures Orderly(RemoveOps(n, from, b)) && Within(RemoveOps(n, from, b), {}, {n})
  {
    hide ToRemove;
    if from != [] {
      RemoveOpsOrderly(n, from[1..], b);
    }
  }

  lemma {:induction false} SetOpsOrderly(n: Node, from: seq<Attribute>, a: seq<Attribute>)
    ensures Orderly(SetOps(n, from, a)) && Within(SetOps(n, from, a), {}, {n})
  {
    hide ToSet;
    if from != [] {
      SetOpsOrderly(n, from[1..], a);
    }
  }

  lemma OwnOpsOrderly(n: Node, a: Payload, b: Payload)
    requires Alike(a, b)
    ensures Orderly(OwnOps(n, a, b)) && Within(OwnOps(n, a, b), {}, {n})
  {
    if a.Element? {
      RemoveOpsOrderly(n, Enumerated(a.attributes), b.attributes);
      SetOpsOrderly(n, Enumerated(b.attributes), a.attributes);
      hide Orderly, Within, Enumerated, RemoveOps, SetOps;
      OrderlyConcat(RemoveOps(n, Enumerated(a.attributes), b.attributes),
                    SetOps(n, Enumerated(b.attributes), a.attributes),
                    {}, {}, {n}, {n});
    }
  }

  lemma {:induction false} RemoveKidsOrderly(n: Node, a: seq<Tree>)
    requires AllDistinct(a) && n !in AllNodes(a)
    ensures Orderly(RemoveKids(n, a)) && Within(RemoveKids(n, a), AllNodes(a), {n} + AllNodes(a))
  {
    if a != [] {
      var x := a[0].node;
      assert x in Nodes(a[0]);
      RemoveKidsOrderly(n, a[1..]);
      SingleOp(Op.RemoveChild(n, x));
      hide Orderly, Within;
      OrderlyConcat([Op.RemoveChild(n, x)], RemoveKids(n, a[1..]), {x}, AllNodes(a[1..]), {n, x},
                    {n} + AllNodes(a[1..]));
      WithinMore(RemoveKids(n, a), {x} + AllNodes(a[1..]), {n, x} + ({n} + AllNodes(a[1..])), AllNodes(a),
                 {n} + AllNodes(a));
    }
  }

  lemma SingleOp(op: Op)
    ensures Orderly([op]) && Within([op], TakenOut(op), Mentioned(op))
  {
  }

  lemma WithinMore(ops: seq<Op>, out: set<Node>, all: set<Node>, out': set<Node>, all': set<Node>)
    requires Within(ops, out, all) && out <= out' && all <= all'
    ensures Within(ops, out', all')
  {
  }

  lemma {:induction false} NodeOpsOrderly(a: Tree, b: Tree)
    requires Distinct(a) && Distinct(b) && Nodes(a) !! Nodes(b)
    ensures Orderly(NodeOps(a, b)) && Within(NodeOps(a, b), Nodes(a), Nodes(a) + Nodes(b))
    decreases b, 1
  {
    hide Orderly, Within;
    if Alike(a.payload, b.payload) {
      OwnOpsOrderly(a.node, a.payload, b.payload);
      KidsOpsOrderly(a.node, a.kids, b.kids);
      OrderlyConcat(OwnOps(a.node, a.payload, b.payload), KidsOps(a.node, a.kids, b.kids), {}, AllNodes(a.kids),
                    {a.node}, {a.node} + AllNodes(a.kids) + AllNodes(b.kids));
      WithinMore(NodeOps(a, b), {} + AllNodes(a.kids), {a.node} + ({a.node} + AllNodes(a.kids) + AllNodes(b.kids)),
                 Nodes(a), Nodes(a) + Nodes(b));
    } else {
      SingleOp(Op.ReplaceNode(a.node, b.node));
      WithinMore(NodeOps(a, b), {a.node}, {a.node, b.node}, Nodes(a), Nodes(a) + Nodes(b));
    }
  }

  /** In a script no operation mentions a node that an earlier operation removed or replaced. */
  lemma {:induction false} KidsOpsOrderly(n: Node, a: seq<Tree>, b: seq<Tree>)
    requires AllDistinct(a) && AllDistinct(b) && AllNodes(a) !! AllNodes(b) && n !in AllNodes(a) + AllNodes(b)
    ensures Orderly(KidsOps(n, a, b)) && Within(KidsOps(n, a, b), AllNodes(a), {n} + AllNodes(a) + AllNodes(b))
    decreases b, 0
  {
    hide Orderly, Within;
    var all := {n} + AllNodes(a) + AllNodes(b);
    if b == [] {
      RemoveKidsOrderly(n, a);
      WithinMore(RemoveKids(n, a), AllNodes(a), {n} + AllNodes(a), AllNodes(a), all);
    } else if a == [] {
      var y := b[0].node;
      assert y in Nodes(b[0]);
      KidsOpsOrderly(n, a, b[1..]);
      SingleOp(Op.AppendChild(n, y));
      OrderlyConcat([Op.AppendChild(n, y)], KidsOps(n, a, b[1..]), {}, AllNodes(a), {n, y},
                    {n} + AllNodes(a) + AllNodes(b[1..]));
      WithinMore(KidsOps(n, a, b), {} + AllNodes(a), {n, y} + ({n} + AllNodes(a) + AllNodes(b[1..])), AllNodes(a), all);
    } else {
      NodeOpsOrderly(a[0], b[0]);
      KidsOpsOrderly(n, a[1..], b[1..]);
      OrderlyConcat(NodeOps(a[0], b[0]), KidsOps(n, a[1..], b[1..]), Nodes(a[0]), AllNodes(a[1..]),
                    Nodes(a[0]) + Nodes(b[0]), {n} + AllNodes(a[1..]) + AllNodes(b[1..]));
      WithinMore(KidsOps(n, a, b), Nodes(a[0]) + AllNodes(a[1..]),
                 Nodes(a[0]) + Nodes(b[0]) + ({n} + AllNodes(a[1..]) + AllNodes(b[1..])), AllNodes(a), all);
    }
  }
}
