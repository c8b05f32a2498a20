/** Which nodes a patched tree is made of, place by place, and what the script replaces and sets. Places are compared
    by what stands there, without reference to how the script is computed. */
module LensPlaces {
  import opened Dom
  import opened Lens
  import opened LensTheorems
  import opened Numerals
  import opened Options
  import opened Sorting

  /** A place below a list of children: the position to go to, at each level. */
  type Place = seq<nat>

  function TreeAt(ts: seq<Tree>, at: Place): Option<Tree> {
    if at == [] || at[0] >= |ts| then None
    else if |at| == 1 then Some(ts[at[0]])
    else TreeAt(ts[at[0]].kids, at[1..])
  }

  /** At the place, and at every place on the way to it, both lists have elements of one local name, or texts. */
  predicate Matching(a: seq<Tree>, b: seq<Tree>, at: Place) {
    && at != [] && at[0] < |a| && at[0] < |b|
    && (var x, y := a[at[0]].payload, b[at[0]].payload;
        (x.Element? && y.Element? && x.localName == y.localName) || (x.Text? && y.Text?))
    && (|at| == 1 || Matching(a[at[0]].kids, b[at[0]].kids, at[1..]))
  }

  /** At the place both lists have something, but neither elements of one local name nor texts, as they have at every
      place on the way to it. */
  predicate Clashing(a: seq<Tree>, b: seq<Tree>, at: Place) {
    && at != [] && at[0] < |a| && at[0] < |b|
    && (var x, y := a[at[0]].payload, b[at[0]].payload;
        var alike := (x.Element? && y.Element? && x.localName == y.localName) || (x.Text? && y.Text?);
        if |at| == 1 then !alike else alike && Clashing(a[at[0]].kids, b[at[0]].kids, at[1..]))
  }

  lemma {:induction false} PatchedKidAt(a: seq<Tree>, b: seq<Tree>, i: nat)
    ensures |PatchedKids(a, b)| == |b|
    ensures i < |b| ==> PatchedKids(a, b)[i] == if i < |a| then PatchedNode(a[i], b[i]) else b[i]
    decreases b
  {
    if b != [] && a != [] {
      PatchedKidAt(a[1..], b[1..], if i > 0 then i - 1 else 0);
      hide PatchedNode;
    }
  }

  /** The patched children have nodes at the same places as the target. Each is the old node of that place, kept,
      where both have elements of one local name or texts all the way; everywhere else it is the target's. */
  lemma {:induction false} NodesKept(a: seq<Tree>, b: seq<Tree>, at: Place)
    ensures TreeAt(PatchedKids(a, b), at).Some? <==> TreeAt(b, at).Some?
    ensures Matching(a, b, at) ==> TreeAt(a, at).Some? && TreeAt(b, at).Some?
    ensures TreeAt(b, at).Some? ==>
              TreeAt(PatchedKids(a, b), at).value.node
              == if Matching(a, b, at) then TreeAt(a, at).value.node else TreeAt(b, at).value.node
    decreases at
  {
    if at != [] {
      var i := at[0];
      PatchedKidAt(a, b, i);
      if i < |a| && i < |b| && |at| > 1 {
        NodesKept(a[i].kids, b[i].kids, at[1..]);
      }
      hide PatchedKids;
    }
  }

  /** Where the nodes of the patched children come from, at every place. */
  ghost predicate KeepsNodes(a: seq<Tree>, b: seq<Tree>, patched: seq<Tree>) {
    forall at: Place ::
      && (TreeAt(patched, at).Some? <==> TreeAt(b, at).Some?)
      && (Matching(a, b, at) ==> TreeAt(a, at).Some? && TreeAt(b, at).Some?)
      && (TreeAt(b, at).Some? ==>
            TreeAt(patched, at).value.node
            == if Matching(a, b, at) then TreeAt(a, at).value.node else TreeAt(b, at).value.node)
  }

  lemma AllNodesKept(a: seq<Tree>, b: seq<Tree>)
    ensures KeepsNodes(a, b, PatchedKids(a, b))
  {
    hide PatchedKids, TreeAt, Matching;
    forall at: Place
      ensures TreeAt(PatchedKids(a, b), at).Some? <==> TreeAt(b, at).Some?
      ensures Matching(a, b, at) ==> TreeAt(a, at).Some? && TreeAt(b, at).Some?
      ensures TreeAt(b, at).Some? ==>
                TreeAt(PatchedKids(a, b), at).value.node
                == if Matching(a, b, at) then TreeAt(a, at).value.node else TreeAt(b, at).value.node
    {
      NodesKept(a, b, at);
    }
  }

  /** The script replaces one node by another exactly if they clash at some place. */
  lemma ReplacedIff(n: Node, a: seq<Tree>, b: seq<Tree>, x: Node, y: Node)
    ensures Op.ReplaceNode(x, y) in KidsOps(n, a, b) <==> exists at :: ClashesAt(a, b, at, x, y)
  {
    hide KidsOps, ClashesAt;
    if Op.ReplaceNode(x, y) in KidsOps(n, a, b) {
      var at := PlaceOf(n, a, b, x, y);
    }
    if exists at :: ClashesAt(a, b, at, x, y) {
      var at :| ClashesAt(a, b, at, x, y);
      ReplacedAt(n, a, b, at, x, y);
    }
  }

  ghost predicate ClashesAt(a: seq<Tree>, b: seq<Tree>, at: Place, x: Node, y: Node) {
    && Clashing(a, b, at)
    && TreeAt(a, at).Some? && TreeAt(a, at).value.node == x
    && TreeAt(b, at).Some? && TreeAt(b, at).value.node == y
  }

  /** The same place, seen from a list with one more child in front. */
  lemma PlaceAfter(a: seq<Tree>, b: seq<Tree>, at: Place, x: Node, y: Node)
    requires a != [] && b != [] && at != []
    ensures ClashesAt(a[1..], b[1..], at, x, y) <==> ClashesAt(a, b, [at[0] + 1] + at[1..], x, y)
  {
    var later := [at[0] + 1] + at[1..];
    assert later[1..] == at[1..];
  }

  lemma PlaceBelow(a: seq<Tree>, b: seq<Tree>, at: Place, x: Node, y: Node)
    requires a != [] && b != [] && at != [] && Alike(a[0].payload, b[0].payload)
    ensures ClashesAt(a[0].kids, b[0].kids, at, x, y) <==> ClashesAt(a, b, [0] + at, x, y)
  {
    assert ([0] + at)[1..] == at;
  }

  lemma {:induction false} PlaceOf(n: Node, a: seq<Tree>, b: seq<Tree>, x: Node, y: Node) returns (at: Place)
    requires Op.ReplaceNode(x, y) in KidsOps(n, a, b)
    ensures ClashesAt(a, b, at, x, y)
    decreases b
  {
    if b == [] {
      NoReplacements(n, a, x, y);
      at := [];
    } else if a == [] {
      at := PlaceOf(n, a, b[1..], x, y);
      hide *;
      NothingClashes(b[1..], at, x, y);
    } else if Op.ReplaceNode(x, y) in KidsOps(n, a[1..], b[1..]) {
      at := PlaceOf(n, a[1..], b[1..], x, y);
      AtSomewhere(a[1..], b[1..], at, x, y);
      PlaceAfter(a, b, at, x, y);
      at := [at[0] + 1] + at[1..];
    } else {
      at := PlaceInPair(n, a, b, x, y);
    }
  }

  lemma AtSomewhere(a: seq<Tree>, b: seq<Tree>, at: Place, x: Node, y: Node)
    requires ClashesAt(a, b, at, x, y)
    ensures at != []
  {
  }

  lemma NothingClashes(b: seq<Tree>, at: Place, x: Node, y: Node)
    ensures !ClashesAt([], b, at, x, y)
  {
  }

  lemma PlaceInPair(n: Node, a: seq<Tree>, b: seq<Tree>, x: Node, y: Node) returns (at: Place)
    requires a != [] && b != [] && Op.ReplaceNode(x, y) in NodeOps(a[0], b[0])
    ensures ClashesAt(a, b, at, x, y)
    decreases b, 0
  {
    if Alike(a[0].payload, b[0].payload) {
      OwnOpsReplaceNothing(a[0].node, a[0].payload, b[0].payload, x, y);
      assert b[0] in b;
      at := PlaceOf(a[0].node, a[0].kids, b[0].kids, x, y);
      AtSomewhere(a[0].kids, b[0].kids, at, x, y);
      PlaceBelow(a, b, at, x, y);
      at := [0] + at;
    } else {
      at := [0];
    }
  }

  lemma {:induction false} NoReplacements(n: Node, a: seq<Tree>, x: Node, y: Node)
    ensures Op.ReplaceNode(x, y) !in RemoveKids(n, a)
  {
    if a != [] {
      NoReplacements(n, a[1..], x, y);
    }
  }

  lemma OwnOpsReplaceNothing(n: Node, a: Payload, b: Payload, x: Node, y: Node)
    requires Alike(a, b)
    ensures Op.ReplaceNode(x, y) !in OwnOps(n, a, b)
  {
    if a.Element? {
      RemoveOpsHave(n, Enumerated(a.attributes), b.attributes, Op.ReplaceNode(x, y));
      SetOpsHave(n, Enumerated(b.attributes), a.attributes, Op.ReplaceNode(x, y));
    }
  }

  lemma {:induction false} ReplacedAt(n: Node, a: seq<Tree>, b: seq<Tree>, at: Place, x: Node, y: Node)
    requires ClashesAt(a, b, at, x, y)
    ensures Op.ReplaceNode(x, y) in KidsOps(n, a, b)
    decreases b
  {
    if at[0] > 0 {
      var before := [at[0] - 1] + at[1..];
      assert [before[0] + 1] + before[1..] == at;
      PlaceAfter(a, b, before, x, y);
      ReplacedAt(n, a[1..], b[1..], before, x, y);
    } else if |at| > 1 {
      assert [0] + at[1..] == at && b[0] in b;
      PlaceBelow(a, b, at[1..], x, y);
      ReplacedAt(a[0].node, a[0].kids, b[0].kids, at[1..], x, y);
    }
  }

  // ---------- attributes

  lemma {:induction false} RemoveOpsHave(n: Node, from: seq<Attribute>, b: seq<Attribute>, op: Op)
    ensures op in RemoveOps(n, from, b)
            <==> exists x :: x in from && ToRemove(x, b) && op == Op.RemoveAttribute(n, x.name)
  {
    hide ToRemove;
    if from != [] {
      RemoveOpsHave(n, from[1..], b, op);
      assert from == [from[0]] + from[1..];
    }
  }

  lemma {:induction false} SetOpsHave(n: Node, from: seq<Attribute>, a: seq<Attribute>, op: Op)
    ensures op in SetOps(n, from, a)
            <==> exists x :: x in from && ToSet(x, a) && op == Op.SetAttribute(n, x.name, x.value)
  {
    hide ToSet;
    if from != [] {
      SetOpsHave(n, from[1..], a, op);
      assert from == [from[0]] + from[1..];
    }
  }

  /** An attribute is set exactly if the target has it and the old element does not have it with this value, and removed
      exactly if only the old element has it; but for the name that cannot be assigned, and the names that every object
      inherits, which are never removed. */
  lemma AttributeOpsIff(n: Node, a: seq<Attribute>, b: seq<Attribute>, k: string, v: string)
    requires DistinctNames(a) && DistinctNames(b)
    ensures Op.SetAttribute(n, k, v) in AttributeOps(n, a, b) <==>
              Attribute(k, v) in b && Attribute(k, v) !in a && k != "__proto__"
    ensures Op.RemoveAttribute(n, k) in AttributeOps(n, a, b) <==>
              && (exists x :: x in a && x.name == k) && !(exists x :: x in b && x.name == k)
              && k !in {"constructor", "hasOwnProperty", "isPrototypeOf", "propertyIsEnumerable", "toLocaleString",
                        "toString", "valueOf", "__defineGetter__", "__defineSetter__", "__lookupGetter__",
                        "__lookupSetter__", "__proto__"}
  {
    var set', remove := Op.SetAttribute(n, k, v), Op.RemoveAttribute(n, k);
    EnumeratedSame(a);
    EnumeratedSame(b);
    hide Enumerated, RemoveOps, SetOps;
    RemoveOpsHave(n, Enumerated(a), b, set');
    RemoveOpsHave(n, Enumerated(a), b, remove);
    SetOpsHave(n, Enumerated(b), a, set');
    SetOpsHave(n, Enumerated(b), a, remove);
    SetIff(a, b, k, v);
    RemoveIff(a, b, k);
    hide ToRemove, ToSet;
  }

  // ---------- the order in which keys are visited

  /** A numeral below two to the thirty-second, less one. */
  predicate IsNumeral(name: string, n: int) {
    0 <= n < 4_294_967_295 && name == Numeral(n)
  }

  lemma IndexIff(name: string)
    ensures IsIndex(name) <==> exists n :: IsNumeral(name, n)
    ensures forall n | IsNumeral(name, n) :: ValueOf(name) == n
  {
    if IsIndex(name) {
      ReadsBackNumeral(name);
      assert IsNumeral(name, ValueOf(name));
    }
    forall n | IsNumeral(name, n)
      ensures IsIndex(name) && ValueOf(name) == n
    {
      NumeralReadsBack(n);
      NumeralCanonical(n);
    }
  }

  ghost predicate ListedBefore(s: seq<Attribute>, a: int, b: int, x: string, y: string) {
    0 <= a < b < |s| && s[a].name == x && s[b].name == y
  }

  /** Array indices are visited first, the smaller before the larger; the others in the order they are listed in. */
  lemma EnumeratedOrder(s: seq<Attribute>, i: nat, j: nat)
    requires DistinctNames(s) && i < j < |Enumerated(s)|
    ensures var x, y := Enumerated(s)[i].name, Enumerated(s)[j].name;
            && (forall n | IsNumeral(y, n) :: exists m :: m < n && IsNumeral(x, m))
            && ((exists m :: IsNumeral(x, m)) || exists a, b :: ListedBefore(s, a, b, x, y))
  {
    var x, y := Enumerated(s)[i].name, Enumerated(s)[j].name;
    IndexIff(x);
    IndexIff(y);
    hide *;
    IndicesFirst(s, i, j);
    if IsIndex(x) {
      var m :| IsNumeral(x, m);
    }
  }

  lemma SortedIsIndex(s: seq<Attribute>, i: nat)
    requires i < |Sort(ByIndex, Picked(s, true))|
    ensures IsIndex(Sort(ByIndex, Picked(s, true))[i].name)
  {
    hide *;
    var p := Sort(ByIndex, Picked(s, true));
    assert p[i] in multiset(p);
    PickedPlaces(s, true);
  }

  lemma OtherIsNone(s: seq<Attribute>, i: nat)
    requires i < |Picked(s, false)|
    ensures !IsIndex(Picked(s, false)[i].name)
  {
    hide *;
    PickedPlaces(s, false);
    assert Picked(s, false)[i] in Picked(s, false);
  }

  lemma EnumeratedAt(s: seq<Attribute>, i: nat)
    requires i < |Enumerated(s)|
    ensures var p, q := Sort(ByIndex, Picked(s, true)), Picked(s, false);
            && (i < |p| ==> Enumerated(s)[i] == p[i])
            && (i >= |p| ==> i - |p| < |q| && Enumerated(s)[i] == q[i-|p|])
            && (IsIndex(Enumerated(s)[i].name) <==> i < |p|)
  {
    var p, q := Sort(ByIndex, Picked(s, true)), Picked(s, false);
    assert Enumerated(s) == p + q;
    hide *;
    if i < |p| {
      SortedIsIndex(s, i);
    } else {
      OtherIsNone(s, i - |p|);
    }
  }

  lemma IndicesFirst(s: seq<Attribute>, i: nat, j: nat)
    requires DistinctNames(s) && i < j < |Enumerated(s)|
    ensures var x, y := Enumerated(s)[i].name, Enumerated(s)[j].name;
            && (IsIndex(y) ==> IsIndex(x) && ValueOf(x) < ValueOf(y))
            && (IsIndex(x) || exists a, b :: ListedBefore(s, a, b, x, y))
  {
    hide Enumerated, Sort, Picked, IsIndex, DistinctNames, ListedBefore;
    EnumeratedAt(s, i);
    EnumeratedAt(s, j);
    var n := |Sort(ByIndex, Picked(s, true))|;
    if j < n {
      IndicesInOrder(s, i, j);
    } else if i >= n {
      PickedInOrder(s, false, i - n, j - n);
    }
  }

  lemma {:induction false} PickedPlaces(s: seq<Attribute>, indices: bool)
    ensures forall x :: x in Picked(s, indices) <==> x in s && IsIndex(x.name) == indices
  {
    if s != [] {
      PickedPlaces(s[1..], indices);
      assert s == [s[0]] + s[1..];
      hide IsIndex;
    }
  }

  lemma {:induction false} PickedInOrder(s: seq<Attribute>, indices: bool, i: nat, j: nat)
    requires i < j < |Picked(s, indices)|
    ensures exists a, b :: ListedBefore(s, a, b, Picked(s, indices)[i].name, Picked(s, indices)[j].name)
  {
    hide ListedBefore, IsIndex;
    var p, rest := Picked(s, indices), Picked(s[1..], indices);
    if IsIndex(s[0].name) != indices {
      assert p == rest;
      PickedInOrder(s[1..], indices, i, j);
      ListedLater(s, p[i].name, p[j].name);
    } else {
      assert p == [s[0]] + rest;
      assert p[j] == rest[j-1];
      if i > 0 {
        assert p[i] == rest[i-1];
        PickedInOrder(s[1..], indices, i - 1, j - 1);
        ListedLater(s, p[i].name, p[j].name);
      } else {
        assert p[i] == s[0];
        PickedPlaces(s[1..], indices);
        ListedAfterFirst(s, p[j]);
      }
    }
  }

  lemma ListedLater(s: seq<Attribute>, x: string, y: string)
    requires s != [] && exists a, b :: ListedBefore(s[1..], a, b, x, y)
    ensures exists a, b :: ListedBefore(s, a, b, x, y)
  {
    var a, b :| ListedBefore(s[1..], a, b, x, y);
    assert ListedBefore(s, a + 1, b + 1, x, y);
  }

  lemma ListedAfterFirst(s: seq<Attribute>, x: Attribute)
    requires s != [] && x in s[1..]
    ensures exists a, b :: ListedBefore(s, a, b, s[0].name, x.name)
  {
    var b :| 0 <= b < |s[1..]| && s[1..][b] == x;
    assert ListedBefore(s, 0, b + 1, s[0].name, x.name);
  }

  lemma IndicesInOrder(s: seq<Attribute>, i: nat, j: nat)
    requires DistinctNames(s) && i < j < |Sort(ByIndex, Picked(s, true))|
    ensures var p := Sort(ByIndex, Picked(s, true)); ByIndex(p[i], p[j])
  {
    var t := Picked(s, true);
    var p := Sort(ByIndex, t);
    PickedPlaces(s, true);
    SameElements(p, t);
    EnumeratedSame(s);
    assert Enumerated(s)[i] == p[i] && Enumerated(s)[j] == p[j];
    assert p[i] in p && p[j] in p && p[i] != p[j];
    hide *;
    IndexOrder();
    forall x, y | x in t && y in t
      ensures x == y || ByIndex(x, y) || ByIndex(y, x)
    {
      Comparable(s, x, y);
    }
    SortedInOrder(t, p[i], p[j], i, j);
  }

  lemma SortedInOrder(t: seq<Attribute>, x: Attribute, y: Attribute, i: nat, j: nat)
    requires StrictOrder(ByIndex) && TotalOn(ByIndex, t) && i < j < |Sort(ByIndex, t)|
    requires x == Sort(ByIndex, t)[i] && y == Sort(ByIndex, t)[j] && x in t && y in t && x != y
    ensures ByIndex(x, y)
  {
    hide Sort, ByIndex;
    SortSorted(ByIndex, t);
  }

  lemma IndexOrder()
    ensures StrictOrder(ByIndex)
  {
    hide IsIndex;
  }

  lemma Comparable(s: seq<Attribute>, x: Attribute, y: Attribute)
    requires DistinctNames(s) && x in s && y in s && IsIndex(x.name) && IsIndex(y.name)
    ensures x == y || ByIndex(x, y) || ByIndex(y, x)
  {
    if ValueOf(x.name) == ValueOf(y.name) {
      ReadsBackNumeral(x.name);
      ReadsBackNumeral(y.name);
    }
  }

  lemma SetIff(a: seq<Attribute>, b: seq<Attribute>, k: string, v: string)
    ensures Attribute(k, v) in b && ToSet(Attribute(k, v), a) <==>
              Attribute(k, v) in b && Attribute(k, v) !in a && k != "__proto__"
  {
  }

  lemma RemoveIff(a: seq<Attribute>, b: seq<Attribute>, k: string)
    ensures (exists x :: x in a && ToRemove(x, b) && x.name == k) <==>
              && (exists x :: x in a && x.name == k) && !(exists x :: x in b && x.name == k)
              && k !in {"constructor", "hasOwnProperty", "isPrototypeOf", "propertyIsEnumerable", "toLocaleString",
                        "toString", "valueOf", "__defineGetter__", "__defineSetter__", "__lookupGetter__",
                        "__lookupSetter__", "__proto__"}
  {
  }
}
