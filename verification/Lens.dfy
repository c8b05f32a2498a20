/** `diff` and `patch` of `web/include/lens.js`: what the edit script is, that it runs without throwing, and
    what tree it leaves. */
module Lens {
  import opened Options
  import opened Dom
  import opened Numerals
  import opened Sorting

  // ---------- attributes

  ghost predicate DistinctNames(s: seq<Attribute>) {
    forall i, j | 0 <= i < j < |s| :: s[i].name != s[j].name
  }

  /** `attr in {}` holds for these without the object having them. */
  predicate Inherited(name: string) {
    name in {"constructor", "hasOwnProperty", "isPrototypeOf", "propertyIsEnumerable", "toLocaleString", "toString",
             "valueOf", "__defineGetter__", "__defineSetter__", "__lookupGetter__", "__lookupSetter__", "__proto__"}
  }

  /** Assigning a string to this property of an object leaves no trace. */
  predicate Unassignable(name: string) {
    name == "__proto__"
  }

  predicate Owns(s: seq<Attribute>, name: string) {
    !Unassignable(name) && exists a | a in s :: a.name == name
  }

  predicate OwnsValue(s: seq<Attribute>, name: string, value: string) {
    !Unassignable(name) && Attribute(name, value) in s
  }

  /** An attribute that only the old node has is removed. */
  predicate ToRemove(a: Attribute, b: seq<Attribute>) {
    !Unassignable(a.name) && !Owns(b, a.name) && !Inherited(a.name)
  }

  /** An attribute that the old node lacks, or has with another value, is set. */
  predicate ToSet(b: Attribute, a: seq<Attribute>) {
    !Unassignable(b.name) && !OwnsValue(a, b.name, b.value)
  }

  function RemoveOps(n: Node, from: seq<Attribute>, b: seq<Attribute>): seq<Op> {
    if from == [] then [] else
      (if ToRemove(from[0], b) then [Op.RemoveAttribute(n, from[0].name)] else []) + RemoveOps(n, from[1..], b)
  }

  function SetOps(n: Node, from: seq<Attribute>, a: seq<Attribute>): seq<Op> {
    if from == [] then [] else
      (if ToSet(from[0], a) then [Op.SetAttribute(n, from[0].name, from[0].value)] else []) + SetOps(n, from[1..], a)
  }

  /** The numeral of an array index. */
  predicate IsIndex(name: string) {
    name != [] && AllDigits(name) && (name[0] != '0' || |name| == 1) && ValueOf(name) < 0xFFFF_FFFF
  }

  predicate ByIndex(x: Attribute, y: Attribute) {
    IsIndex(x.name) && IsIndex(y.name) && ValueOf(x.name) < ValueOf(y.name)
  }

  function Picked(s: seq<Attribute>, indices: bool): seq<Attribute> {
    if s == [] then [] else (if IsIndex(s[0].name) == indices then [s[0]] else []) + Picked(s[1..], indices)
  }

  /** The order in which `for ... in` visits the keys of an object: array indices first and in order, then the
      others as they were inserted. */
  function Enumerated(s: seq<Attribute>): seq<Attribute> {
    Sort(ByIndex, Picked(s, true)) + Picked(s, false)
  }

  /** `diffa`. */
  function AttributeOps(n: Node, a: seq<Attribute>, b: seq<Attribute>): seq<Op> {
    RemoveOps(n, Enumerated(a), b) + SetOps(n, Enumerated(b), a)
  }

  // ---------- nodes and children

  /** `diffn1`, as far as it decides whether two nodes have anything in common. */
  predicate Alike(a: Payload, b: Payload) {
    match (a, b)
    case (Element(la, _), Element(lb, _)) => la == lb
    case (Text(_), Text(_)) => true
    case _ => false
  }

  function OwnOps(n: Node, a: Payload, b: Payload): seq<Op>
    requires Alike(a, b)
  {
    match (a, b)
    case (Element(_, aa), Element(_, ab)) => AttributeOps(n, aa, ab)
    case (Text(ta), Text(tb)) => if ta == tb then [] else [Op.ReplaceText(n, tb)]
  }

  /** `diffn`. */
  function NodeOps(a: Tree, b: Tree): seq<Op>
    decreases b, 1
  {
    if Alike(a.payload, b.payload) then
      OwnOps(a.node, a.payload, b.payload) + KidsOps(a.node, a.kids, b.kids)
    else
      [Op.ReplaceNode(a.node, b.node)]
  }

  /** `diff`: children are compared in pairs, then the rest is appended or removed. */
  function KidsOps(n: Node, a: seq<Tree>, b: seq<Tree>): seq<Op>
    decreases b, 0
  {
    if b == [] then RemoveKids(n, a)
    else if a == [] then [Op.AppendChild(n, b[0].node)] + KidsOps(n, a, b[1..])
    else NodeOps(a[0], b[0]) + KidsOps(n, a[1..], b[1..])
  }

  function RemoveKids(n: Node, a: seq<Tree>): seq<Op> {
    if a == [] then [] else [Op.RemoveChild(n, a[0].node)] + RemoveKids(n, a[1..])
  }

  // ---------- the tree that a script leaves

  function Removed(s: seq<Attribute>, from: seq<Attribute>, b: seq<Attribute>): seq<Attribute>
    decreases from
  {
    if from == [] then s
    else Removed(if ToRemove(from[0], b) then WithoutAttribute(s, from[0].name) else s, from[1..], b)
  }

  function Assigned(s: seq<Attribute>, from: seq<Attribute>, a: seq<Attribute>): seq<Attribute>
    decreases from
  {
    if from == [] then s
    else Assigned(if ToSet(from[0], a) then WithAttribute(s, from[0].name, from[0].value) else s, from[1..], a)
  }

  function PatchedAttributes(a: seq<Attribute>, b: seq<Attribute>): seq<Attribute> {
    Assigned(Removed(a, Enumerated(a), b), Enumerated(b), a)
  }

  function PatchedPayload(a: Payload, b: Payload): Payload
    requires Alike(a, b)
  {
    match (a, b)
    case (Element(l, aa), Element(_, ab)) => Element(l, PatchedAttributes(aa, ab))
    case (Text(_), Text(tb)) => Text(tb)
  }

  function PatchedNode(a: Tree, b: Tree): Tree
    decreases b, 1
  {
    if Alike(a.payload, b.payload) then Tree(a.node, PatchedPayload(a.payload, b.payload), PatchedKids(a.kids, b.kids))
    else b
  }

  function PatchedKids(a: seq<Tree>, b: seq<Tree>): seq<Tree>
    decreases b, 0
  {
    if b == [] then []
    else if a == [] then b
    else [PatchedNode(a[0], b[0])] + PatchedKids(a[1..], b[1..])
  }

  // ---------- running a script: a node's own operations

  function WithAttributes(h: Heap, n: Node, s: seq<Attribute>): Heap
    requires n in h && h[n].payload.Element?
  {
    h[n := h[n].(payload := h[n].payload.(attributes := s))]
  }

  lemma {:induction false} RunRemoveOps(h: Heap, n: Node, from: seq<Attribute>, b: seq<Attribute>)
    requires n in h && h[n].payload.Element?
    ensures RunOps(h, RemoveOps(n, from, b)) == Some(WithAttributes(h, n, Removed(h[n].payload.attributes, from, b)))
    decreases from
  {
    var s := h[n].payload.attributes;
    if from == [] {
      assert WithAttributes(h, n, s) == h;
    } else if ToRemove(from[0], b) {
      var ops := RemoveOps(n, from, b);
      var h1 := WithAttributes(h, n, WithoutAttribute(s, from[0].name));
      assert ops[0] == Op.RemoveAttribute(n, from[0].name) && ops[1..] == RemoveOps(n, from[1..], b);
      assert ApplyOp(h, ops[0]) == Some(h1);
      RunRemoveOps(h1, n, from[1..], b);
      assert WithAttributes(h1, n, Removed(s, from, b)) == WithAttributes(h, n, Removed(s, from, b));
    } else {
      assert RemoveOps(n, from, b) == RemoveOps(n, from[1..], b);
      RunRemoveOps(h, n, from[1..], b);
    }
  }

  lemma {:induction false} RunSetOps(h: Heap, n: Node, from: seq<Attribute>, a: seq<Attribute>)
    requires n in h && h[n].payload.Element?
    ensures RunOps(h, SetOps(n, from, a)) == Some(WithAttributes(h, n, Assigned(h[n].payload.attributes, from, a)))
    decreases from
  {
    var s := h[n].payload.attributes;
    if from == [] {
      assert WithAttributes(h, n, s) == h;
    } else if ToSet(from[0], a) {
      var ops := SetOps(n, from, a);
      var h1 := WithAttributes(h, n, WithAttribute(s, from[0].name, from[0].value));
      assert ops[0] == Op.SetAttribute(n, from[0].name, from[0].value) && ops[1..] == SetOps(n, from[1..], a);
      assert ApplyOp(h, ops[0]) == Some(h1);
      RunSetOps(h1, n, from[1..], a);
      assert WithAttributes(h1, n, Assigned(s, from, a)) == WithAttributes(h, n, Assigned(s, from, a));
    } else {
      assert SetOps(n, from, a) == SetOps(n, from[1..], a);
      RunSetOps(h, n, from[1..], a);
    }
  }

  lemma RunOwnOps(h: Heap, n: Node, b: Payload)
    requires n in h && Alike(h[n].payload, b)
    ensures RunOps(h, OwnOps(n, h[n].payload, b)) == Some(h[n := h[n].(payload := PatchedPayload(h[n].payload, b))])
  {
    match h[n].payload
    case Element(_, aa) =>
      RunAttributeOps(h, n, b.attributes);
      hide AttributeOps, PatchedAttributes, RunOps;
      assert WithAttributes(h, n, PatchedAttributes(aa, b.attributes))
          == h[n := h[n].(payload := PatchedPayload(h[n].payload, b))];
    case Text(ta) =>
      if ta == b.data {
        assert h[n := h[n].(payload := PatchedPayload(h[n].payload, b))] == h;
      } else {
        var op := Op.ReplaceText(n, b.data);
        assert [op][0] == op && [op][1..] == [];
      }
  }

  lemma RunAttributeOps(h: Heap, n: Node, ab: seq<Attribute>)
    requires n in h && h[n].payload.Element?
    ensures var aa := h[n].payload.attributes;
            RunOps(h, AttributeOps(n, aa, ab)) == Some(WithAttributes(h, n, PatchedAttributes(aa, ab)))
  {
    hide Enumerated, RemoveOps, SetOps, Removed, Assigned;
    var aa := h[n].payload.attributes;
    var h1 := WithAttributes(h, n, Removed(aa, Enumerated(aa), ab));
    RunRemoveOps(h, n, Enumerated(aa), ab);
    RunSetOps(h1, n, Enumerated(ab), aa);
    RunConcat(h, RemoveOps(n, Enumerated(aa), ab), SetOps(n, Enumerated(ab), aa));
    hide RunOps;
    assert WithAttributes(h1, n, PatchedAttributes(aa, ab)) == WithAttributes(h, n, PatchedAttributes(aa, ab));
  }

  /** Only elements and the like have children. */
  ghost predicate WellFormed(t: Tree)
    decreases t, 1
  {
    (t.kids != [] ==> CanHaveChildren(t.payload)) && AllWellFormed(t.kids)
  }

  ghost predicate AllWellFormed(ts: seq<Tree>)
    decreases ts, 0
  {
    ts == [] || (WellFormed(ts[0]) && AllWellFormed(ts[1..]))
  }

  /** Apart from the touched nodes and the children of `q`, only the children of `p` have changed. */
  ghost predicate Frame(h: Heap, h': Heap, p: Node, kids: seq<Node>, q: Node, touched: set<Node>) {
    && p in h && q in h && h'.Keys == h.Keys
    && h'[p] == h[p].(children := kids)
    && h'[q] == h[q].(children := h'[q].children)
    && forall n | n in h && n !in touched && n != p && n != q :: h'[n] == h[n]
  }

  /** A pair of nodes in place: `x` as a child of `p`, between other nodes, and `y` as a child of `q`. */
  ghost predicate Pair(h: Heap, p: Node, before: seq<Node>, rest: seq<Node>, q: Node, x: Tree, y: Tree) {
    && p in h && q in h && p != q && h[p].children == before + [x.node] + rest
    && Holds(h, x) && Holds(h, y) && h[x.node].parent == p && h[y.node].parent == q
    && Distinct(x) && Distinct(y) && Nodes(x) !! Nodes(y) && WellFormed(x) && WellFormed(y)
    && p !in Nodes(x) + Nodes(y) && q !in Nodes(x) + Nodes(y)
    && (forall n | n in before + rest :: n !in Nodes(x) + Nodes(y))
  }

  ghost predicate Lists(h: Heap, p: Node, before: seq<Node>, q: Node, a: seq<Tree>, b: seq<Tree>) {
    && p in h && q in h && p != q && h[p].children == before + Roots(a)
    && (b != [] ==> CanHaveChildren(h[p].payload))
    && AllHeld(h, p, a) && AllHeld(h, q, b)
    && AllDistinct(a) && AllDistinct(b) && AllNodes(a) !! AllNodes(b) && AllWellFormed(a) && AllWellFormed(b)
    && p !in AllNodes(a) + AllNodes(b) && q !in AllNodes(a) + AllNodes(b)
    && (forall n | n in before :: n !in AllNodes(a) + AllNodes(b))
  }

  lemma FrameCompose(h: Heap, h1: Heap, h2: Heap, p: Node, k1: seq<Node>, k2: seq<Node>, q: Node, t1: set<Node>,
                     t2: set<Node>)
    requires Frame(h, h1, p, k1, q, t1) && Frame(h1, h2, p, k2, q, t2)
    ensures Frame(h, h2, p, k2, q, t1 + t2)
  {
  }

  lemma ReplacePair(h: Heap, p: Node, before: seq<Node>, rest: seq<Node>, q: Node, x: Tree, y: Tree)
    requires Pair(h, p, before, rest, q, x, y)
    ensures ApplyOp(h, Op.ReplaceNode(x.node, y.node)).Some?
    ensures var h' := ApplyOp(h, Op.ReplaceNode(x.node, y.node)).value;
            && Frame(h, h', p, before + [y.node] + rest, q, {x.node, y.node})
            && h'[y.node] == h[y.node].(parent := p)
  {
    ExchangedAmid(before, x.node, rest, y.node);
  }

  lemma AppendOne(h: Heap, p: Node, q: Node, y: Node)
    requires p in h && q in h && y in h && p != q && y != p && y != q
    requires CanHaveChildren(h[p].payload) && h[y].parent == q
    ensures ApplyOp(h, Op.AppendChild(p, y)).Some?
    ensures var h' := ApplyOp(h, Op.AppendChild(p, y)).value;
            && Frame(h, h', p, h[p].children + [y], q, {y})
            && h'[y] == h[y].(parent := p)
  {
  }

  lemma RemoveOne(h: Heap, p: Node, before: seq<Node>, x: Node, rest: seq<Node>)
    requires p in h && x in h && p != x && h[x].parent == p && h[p].children == before + [x] + rest
    requires x !in before && x !in rest
    ensures ApplyOp(h, Op.RemoveChild(p, x)).Some?
    ensures var h' := ApplyOp(h, Op.RemoveChild(p, x)).value;
            && h'.Keys == h.Keys && h'[p] == h[p].(children := before + rest)
            && forall n | n in h && n != p && n != x :: h'[n] == h[n]
  {
    WithoutNodeAmid(before, x, rest);
  }

  lemma {:induction false} RunRemoveKids(h: Heap, p: Node, before: seq<Node>, a: seq<Tree>)
    requires p in h && h[p].children == before + Roots(a) && AllHeld(h, p, a) && AllDistinct(a) && p !in AllNodes(a)
    requires forall n | n in before :: n !in AllNodes(a)
    ensures RunOps(h, RemoveKids(p, a)).Some?
    ensures var h' := RunOps(h, RemoveKids(p, a)).value;
            && h'.Keys == h.Keys && h'[p] == h[p].(children := before)
            && forall n | n in h && n !in AllNodes(a) && n != p :: h'[n] == h[n]
  {
    if a == [] {
      assert before + [] == before;
    } else {
      var x, rest := a[0].node, Roots(a[1..]);
      assert x in Nodes(a[0]) && x in AllNodes(a);
      assert before + Roots(a) == before + [x] + rest;
      RootsAreNodes(a[1..]);
      RemoveOne(h, p, before, x, rest);
      var h1 := ApplyOp(h, Op.RemoveChild(p, x)).value;
      AllHeldFrame(h, h1, p, a[1..]);
      RunRemoveKids(h1, p, before, a[1..]);
      var ops := RemoveKids(p, a);
      assert ops[0] == Op.RemoveChild(p, x) && ops[1..] == RemoveKids(p, a[1..]);
    }
  }

  lemma {:induction false} PatchedNodeNodes(x: Tree, y: Tree)
    ensures Nodes(PatchedNode(x, y)) <= Nodes(x) + Nodes(y)
    decreases y, 1
  {
    if Alike(x.payload, y.payload) {
      PatchedKidsNodes(x.kids, y.kids);
    }
  }

  lemma {:induction false} PatchedKidsNodes(a: seq<Tree>, b: seq<Tree>)
    ensures AllNodes(PatchedKids(a, b)) <= AllNodes(a) + AllNodes(b)
    decreases b, 0
  {
    if b != [] && a != [] {
      PatchedNodeNodes(a[0], b[0]);
      PatchedKidsNodes(a[1..], b[1..]);
      assert PatchedKids(a, b)[1..] == PatchedKids(a[1..], b[1..]);
    }
  }

  /** After the script for a pair has run, the patched node stands where the first one stood. */
  ghost predicate PairDone(h: Heap, h': Heap, p: Node, before: seq<Node>, rest: seq<Node>, q: Node, x: Tree, y: Tree,
                           z: Tree) {
    && Frame(h, h', p, before + [z.node] + rest, q, Nodes(x) + Nodes(y))
    && Holds(h', z) && h'[z.node].parent == p
  }

  ghost predicate ListsDone(h: Heap, h': Heap, p: Node, before: seq<Node>, q: Node, a: seq<Tree>, b: seq<Tree>,
                            c: seq<Tree>) {
    && Frame(h, h', p, before + Roots(c), q, AllNodes(a) + AllNodes(b))
    && AllHeld(h', p, c)
  }

  lemma ReplaceDone(h: Heap, p: Node, before: seq<Node>, rest: seq<Node>, q: Node, x: Tree, y: Tree)
    requires Pair(h, p, before, rest, q, x, y) && !Alike(x.payload, y.payload)
    ensures RunOps(h, NodeOps(x, y)).Some?
    ensures PairDone(h, RunOps(h, NodeOps(x, y)).value, p, before, rest, q, x, y, PatchedNode(x, y))
  {
    ReplacePair(h, p, before, rest, q, x, y);
    var op := Op.ReplaceNode(x.node, y.node);
    var h' := ApplyOp(h, op).value;
    hide ApplyOp;
    assert [op][0] == op && [op][1..] == [];
    assert RunOps(h', []) == Some(h');
    HoldsAnyParent(h, h', y);
  }

  /** The nodes' own operations done, their children are two lists in place. */
  lemma InnerLists(h: Heap, h1: Heap, p: Node, before: seq<Node>, rest: seq<Node>, q: Node, x: Tree, y: Tree)
    requires Pair(h, p, before, rest, q, x, y) && Alike(x.payload, y.payload)
    requires h1 == h[x.node := h[x.node].(payload := PatchedPayload(x.payload, y.payload))]
    ensures Lists(h1, x.node, [], y.node, x.kids, y.kids)
  {
    AllHeldFrame(h, h1, x.node, x.kids);
    AllHeldFrame(h, h1, y.node, y.kids);
    assert [] + Roots(x.kids) == Roots(x.kids);
  }

  lemma InnerDone(h: Heap, h1: Heap, h2: Heap, p: Node, before: seq<Node>, rest: seq<Node>, q: Node, x: Tree, y: Tree)
    requires Pair(h, p, before, rest, q, x, y) && Alike(x.payload, y.payload)
    requires h1 == h[x.node := h[x.node].(payload := PatchedPayload(x.payload, y.payload))]
    requires ListsDone(h1, h2, x.node, [], y.node, x.kids, y.kids, PatchedKids(x.kids, y.kids))
    ensures PairDone(h, h2, p, before, rest, q, x, y, PatchedNode(x, y))
  {
    hide PatchedKids, PatchedPayload;
    var z := PatchedNode(x, y);
    assert z == Tree(x.node, PatchedPayload(x.payload, y.payload), PatchedKids(x.kids, y.kids));
    assert [] + Roots(z.kids) == Roots(z.kids);
    assert h2[p] == h[p] && h2[q] == h[q];
  }

  lemma {:induction false} RunNodeOps(h: Heap, p: Node, before: seq<Node>, rest: seq<Node>, q: Node, x: Tree, y: Tree)
    requires Pair(h, p, before, rest, q, x, y)
    ensures RunOps(h, NodeOps(x, y)).Some?
    ensures PairDone(h, RunOps(h, NodeOps(x, y)).value, p, before, rest, q, x, y, PatchedNode(x, y))
    decreases y, 1
  {
    if Alike(x.payload, y.payload) {
      assert h[x.node].payload == x.payload;
      var own := OwnOps(x.node, x.payload, y.payload);
      var h1 := h[x.node := h[x.node].(payload := PatchedPayload(x.payload, y.payload))];
      RunOwnOps(h, x.node, y.payload);
      InnerLists(h, h1, p, before, rest, q, x, y);
      RunKidsOps(h1, x.node, [], y.node, x.kids, y.kids);
      RunConcat(h, own, KidsOps(x.node, x.kids, y.kids));
      hide Pair, Lists, ListsDone, PairDone, RunOps, PatchedNode, OwnOps, KidsOps;
      InnerDone(h, h1, RunOps(h1, KidsOps(x.node, x.kids, y.kids)).value, p, before, rest, q, x, y);
    } else {
      ReplaceDone(h, p, before, rest, q, x, y);
    }
  }

  lemma RemoveDone(h: Heap, p: Node, before: seq<Node>, q: Node, a: seq<Tree>)
    requires Lists(h, p, before, q, a, [])
    ensures RunOps(h, KidsOps(p, a, [])).Some?
    ensures ListsDone(h, RunOps(h, KidsOps(p, a, [])).value, p, before, q, a, [], [])
  {
    RunRemoveKids(h, p, before, a);
    assert before + [] == before;
  }

  /** Appending the next child of `q` to the children of `p` leaves lists in place for the rest. */
  lemma AppendStep(h: Heap, p: Node, before: seq<Node>, q: Node, b: seq<Tree>)
    requires Lists(h, p, before, q, [], b) && b != []
    ensures var op := Op.AppendChild(p, b[0].node);
            && Known(h, op) && ApplyOp(h, op).Some?
            && var h1 := ApplyOp(h, op).value;
               && Lists(h1, p, before + [b[0].node], q, [], b[1..])
               && Frame(h, h1, p, before + [b[0].node], q, Nodes(b[0]))
               && Holds(h1, b[0]) && h1[b[0].node].parent == p
  {
    var y := b[0].node;
    assert Holds(h, b[0]) && y in Nodes(b[0]) && y in AllNodes(b);
    AppendOne(h, p, q, y);
    var h1 := ApplyOp(h, Op.AppendChild(p, y)).value;
    hide ApplyOp;
    assert before + Roots([]) == before;
    assert before + [y] + Roots([]) == before + [y];
    HoldsAnyParent(h, h1, b[0]);
    AllHeldFrame(h, h1, q, b[1..]);
    assert y !in AllNodes(b[1..]);
  }

  /** What other nodes' operations did not touch is still held. */
  lemma StillHeld(h1: Heap, h2: Heap, p: Node, kids: seq<Node>, q: Node, touched: set<Node>, z: Tree)
    requires Frame(h1, h2, p, kids, q, touched) && Holds(h1, z) && h1[z.node].parent == p
    requires Nodes(z) !! touched && p !in Nodes(z) && q !in Nodes(z)
    ensures Holds(h2, z) && h2[z.node].parent == p
  {
    assert z.node in Nodes(z);
    hide Holds, Nodes;
    HoldsFrame(h1, h2, z);
  }

  lemma AppendDone(h: Heap, h1: Heap, h2: Heap, p: Node, before: seq<Node>, q: Node, b: seq<Tree>)
    requires Lists(h, p, before, q, [], b) && b != []
    requires Frame(h, h1, p, before + [b[0].node], q, Nodes(b[0])) && Holds(h1, b[0]) && h1[b[0].node].parent == p
    requires ListsDone(h1, h2, p, before + [b[0].node], q, [], b[1..], b[1..])
    ensures ListsDone(h, h2, p, before, q, [], b, b)
  {
    var y, touched := b[0].node, AllNodes([]) + AllNodes(b[1..]);
    HeadApart(h, p, before, q, b);
    AllHeldCons(h2, p, b);
    HeadAndRest(before, b);
    hide Frame, Holds, Lists, AllHeld, Roots, Nodes, AllNodes;
    FrameCompose(h, h1, h2, p, before + [y], before + Roots(b), q, Nodes(b[0]), touched);
    StillHeld(h1, h2, p, before + Roots(b), q, touched, b[0]);
  }

  lemma HeadAndRest(before: seq<Node>, b: seq<Tree>)
    requires b != []
    ensures before + [b[0].node] + Roots(b[1..]) == before + Roots(b)
    ensures Nodes(b[0]) + (AllNodes([]) + AllNodes(b[1..])) == AllNodes([]) + AllNodes(b)
  {
    var y, none, rest := b[0].node, AllNodes([]), b[1..];
    assert Roots(b) == [y] + Roots(rest) && AllNodes(b) == Nodes(b[0]) + AllNodes(rest);
    hide Roots, AllNodes, Nodes;
    assert before + [y] + Roots(rest) == before + ([y] + Roots(rest));
  }

  lemma HeadApart(h: Heap, p: Node, before: seq<Node>, q: Node, b: seq<Tree>)
    requires Lists(h, p, before, q, [], b) && b != []
    ensures p !in Nodes(b[0]) && q !in Nodes(b[0]) && Nodes(b[0]) !! AllNodes([]) + AllNodes(b[1..])
  {
    hide Holds, AllHeld;
  }

  lemma AllHeldCons(h: Heap, p: Node, ts: seq<Tree>)
    requires ts != []
    ensures AllHeld(h, p, ts) <==> Holds(h, ts[0]) && h[ts[0].node].parent == p && AllHeld(h, p, ts[1..])
  {
  }

  lemma PairInLists(h: Heap, p: Node, before: seq<Node>, q: Node, a: seq<Tree>, b: seq<Tree>)
    requires Lists(h, p, before, q, a, b) && a != [] && b != []
    ensures Pair(h, p, before, Roots(a[1..]), q, a[0], b[0])
  {
    RootsAreNodes(a[1..]);
    assert before + Roots(a) == before + [a[0].node] + Roots(a[1..]);
  }

  lemma PairStep(h: Heap, h1: Heap, p: Node, before: seq<Node>, q: Node, a: seq<Tree>, b: seq<Tree>)
    requires Lists(h, p, before, q, a, b) && a != [] && b != []
    requires PairDone(h, h1, p, before, Roots(a[1..]), q, a[0], b[0], PatchedNode(a[0], b[0]))
    ensures Lists(h1, p, before + [PatchedNode(a[0], b[0]).node], q, a[1..], b[1..])
  {
    var z := PatchedNode(a[0], b[0]);
    assert z.node in Nodes(a[0]) + Nodes(b[0]);
    hide PatchedNode;
    AllHeldFrame(h, h1, p, a[1..]);
    AllHeldFrame(h, h1, q, b[1..]);
    assert before + [z.node] + Roots(a[1..]) == (before + [z.node]) + Roots(a[1..]);
  }

  lemma PairsDone(h: Heap, h1: Heap, h2: Heap, p: Node, before: seq<Node>, q: Node, a: seq<Tree>, b: seq<Tree>)
    requires Lists(h, p, before, q, a, b) && a != [] && b != []
    requires PairDone(h, h1, p, before, Roots(a[1..]), q, a[0], b[0], PatchedNode(a[0], b[0]))
    requires ListsDone(h1, h2, p, before + [PatchedNode(a[0], b[0]).node], q, a[1..], b[1..],
                       PatchedKids(a[1..], b[1..]))
    ensures ListsDone(h, h2, p, before, q, a, b, PatchedKids(a, b))
  {
    var z, rest := PatchedNode(a[0], b[0]), PatchedKids(a[1..], b[1..]);
    PatchedNodeNodes(a[0], b[0]);
    assert PatchedKids(a, b) == [z] + rest && ([z] + rest)[1..] == rest;
    assert z.node in Nodes(z);
    hide PatchedNode, PatchedKids, Pair;
    HoldsFrame(h1, h2, z);
    PairAndRest(before, a, b, z, rest);
    hide Lists, Frame, Roots, Nodes, AllNodes;
    FrameCompose(h, h1, h2, p, before + [z.node] + Roots(a[1..]), before + [z.node] + Roots(rest), q,
                 Nodes(a[0]) + Nodes(b[0]), AllNodes(a[1..]) + AllNodes(b[1..]));
  }

  lemma PairAndRest(before: seq<Node>, a: seq<Tree>, b: seq<Tree>, z: Tree, rest: seq<Tree>)
    requires a != [] && b != []
    ensures before + [z.node] + Roots(rest) == before + Roots([z] + rest)
    ensures Nodes(a[0]) + Nodes(b[0]) + (AllNodes(a[1..]) + AllNodes(b[1..])) == AllNodes(a) + AllNodes(b)
  {
    assert ([z] + rest)[1..] == rest;
    assert Roots([z] + rest) == [z.node] + Roots(rest);
    assert AllNodes(a) == Nodes(a[0]) + AllNodes(a[1..]) && AllNodes(b) == Nodes(b[0]) + AllNodes(b[1..]);
    hide Roots, AllNodes, Nodes;
    assert before + [z.node] + Roots(rest) == before + ([z.node] + Roots(rest));
  }

  lemma {:induction false} RunKidsOps(h: Heap, p: Node, before: seq<Node>, q: Node, a: seq<Tree>, b: seq<Tree>)
    requires Lists(h, p, before, q, a, b)
    ensures RunOps(h, KidsOps(p, a, b)).Some?
    ensures ListsDone(h, RunOps(h, KidsOps(p, a, b)).value, p, before, q, a, b, PatchedKids(a, b))
    decreases b, 0
  {
    hide Pair, Lists, ListsDone, PairDone, Frame, Holds, ApplyOp;
    if b == [] {
      RemoveDone(h, p, before, q, a);
    } else if a == [] {
      AppendStep(h, p, before, q, b);
      var op := Op.AppendChild(p, b[0].node);
      var h1 := ApplyOp(h, op).value;
      RunKidsOps(h1, p, before + [b[0].node], q, [], b[1..]);
      assert PatchedKids([], b[1..]) == b[1..];
      var ops := KidsOps(p, a, b);
      assert ops[0] == op && ops[1..] == KidsOps(p, [], b[1..]);
      AppendDone(h, h1, RunOps(h1, KidsOps(p, [], b[1..])).value, p, before, q, b);
    } else {
      PairInLists(h, p, before, q, a, b);
      RunNodeOps(h, p, before, Roots(a[1..]), q, a[0], b[0]);
      var h1 := RunOps(h, NodeOps(a[0], b[0])).value;
      PairStep(h, h1, p, before, q, a, b);
      RunKidsOps(h1, p, before + [PatchedNode(a[0], b[0]).node], q, a[1..], b[1..]);
      RunConcat(h, NodeOps(a[0], b[0]), KidsOps(p, a[1..], b[1..]));
      PairsDone(h, h1, RunOps(h1, KidsOps(p, a[1..], b[1..])).value, p, before, q, a, b);
    }
  }
}
