/** A document tree as `web/include/lens.js` sees it: node objects with an identity, a parent and an ordered
    list of children, and the five mutations that `patch` uses. */
module Dom {
  import opened Options

  datatype Attribute = Attribute(name: string, value: string)

  datatype Payload =
    | Element(localName: string, attributes: seq<Attribute>)
    | Text(data: string)
    | Comment(data: string)
    | Other(nodeType: int, data: string)

  class Node {
    var payload: Payload
    var parent: Node?
    var children: seq<Node>

    constructor (payload: Payload)
      ensures this.payload == payload && parent == null && children == []
    {
      this.payload, parent, children := payload, null, [];
    }
  }

  datatype NodeData = NodeData(payload: Payload, parent: Node?, children: seq<Node>)

  /** The contents of a set of nodes at one moment. */
  type Heap = map<Node, NodeData>

  datatype Op =
    | SetAttribute(node: Node, key: string, value: string)
    | RemoveAttribute(node: Node, key: string)
    | ReplaceNode(node: Node, with: Node)
    | AppendChild(node: Node, child: Node)
    | RemoveChild(node: Node, child: Node)
    | ReplaceText(node: Node, text: string)

  function WithAttribute(s: seq<Attribute>, key: string, value: string): seq<Attribute> {
    if s == [] then [Attribute(key, value)]
    else if s[0].name == key then [Attribute(key, value)] + s[1..]
    else [s[0]] + WithAttribute(s[1..], key, value)
  }

  function WithoutAttribute(s: seq<Attribute>, key: string): seq<Attribute> {
    if s == [] then []
    else if s[0].name == key then s[1..]
    else [s[0]] + WithoutAttribute(s[1..], key)
  }

  function WithoutNode(s: seq<Node>, n: Node): seq<Node> {
    if s == [] then [] else (if s[0] == n then [] else [s[0]]) + WithoutNode(s[1..], n)
  }

  function Exchanged(s: seq<Node>, n: Node, m: Node): seq<Node> {
    if s == [] then [] else [if s[0] == n then m else s[0]] + Exchanged(s[1..], n, m)
  }

  predicate CanHaveChildren(p: Payload) {
    p.Element? || p.Other?
  }

  /** A node leaves the parent it has, if any. */
  function Detached(h: Heap, n: Node): Heap
    requires n in h
  {
    var p := h[n].parent;
    if p == null || p !in h then h
    else
      var h1 := h[(p as Node) := h[p].(children := WithoutNode(h[p].children, n))];
      h1[n := h1[n].(parent := null)]
  }

  /** One mutation; `None` where the document throws. */
  function ApplyOp(h: Heap, op: Op): Option<Heap>
    requires op.node in h
    requires op.ReplaceNode? ==> op.with in h
    requires op.AppendChild? || op.RemoveChild? ==> op.child in h
  {
    var d := h[op.node];
    match op
    case SetAttribute(n, k, v) =>
      if !d.payload.Element? then None
      else Some(h[n := d.(payload := d.payload.(attributes := WithAttribute(d.payload.attributes, k, v)))])
    case RemoveAttribute(n, k) =>
      if !d.payload.Element? then None
      else Some(h[n := d.(payload := d.payload.(attributes := WithoutAttribute(d.payload.attributes, k)))])
    case ReplaceNode(n, m) =>
      if d.parent == null || d.parent !in h || n == m then None
      else
        var p: Node := d.parent;
        var h1 := Detached(h, m);
        var h2 := h1[p := h1[p].(children := Exchanged(h1[p].children, n, m))];
        var h3 := h2[m := h2[m].(parent := p)];
        Some(h3[n := h3[n].(parent := null)])
    case AppendChild(n, c) =>
      if !CanHaveChildren(d.payload) || n == c then None
      else
        var h1 := Detached(h, c);
        var h2 := h1[n := h1[n].(children := h1[n].children + [c])];
        Some(h2[c := h2[c].(parent := n)])
    case RemoveChild(n, c) =>
      if h[c].parent != n then None else Some(Detached(h, c))
    case ReplaceText(n, s) =>
      if !d.payload.Text? then None else Some(h[n := d.(payload := Text(s))])
  }

  ghost predicate Known(h: Heap, op: Op) {
    && op.node in h
    && (op.ReplaceNode? ==> op.with in h)
    && (op.AppendChild? || op.RemoveChild? ==> op.child in h)
  }

  /** `patch`, as long as nothing throws. */
  ghost function RunOps(h: Heap, ops: seq<Op>): Option<Heap> {
    if ops == [] then Some(h)
    else if !Known(h, ops[0]) then None
    else
      match ApplyOp(h, ops[0])
      case None => None
      case Some(h') => RunOps(h', ops[1..])
  }

  lemma {:induction false} RunConcat(h: Heap, ops: seq<Op>, more: seq<Op>)
    ensures RunOps(h, ops + more) == (match RunOps(h, ops) case None => None case Some(h') => RunOps(h', more))
  {
    if ops == [] {
      assert ops + more == more;
    } else {
      assert (ops + more)[0] == ops[0] && (ops + more)[1..] == ops[1..] + more;
      if Known(h, ops[0]) && ApplyOp(h, ops[0]).Some? {
        RunConcat(ApplyOp(h, ops[0]).value, ops[1..], more);
      }
    }
  }

  // ---------- trees in a heap

  /** A tree together with the nodes it is made of. */
  datatype Tree = Tree(node: Node, payload: Payload, kids: seq<Tree>)

  ghost function Nodes(t: Tree): set<Node> {
    {t.node} + AllNodes(t.kids)
  }

  ghost function AllNodes(ts: seq<Tree>): set<Node> {
    if ts == [] then {} else Nodes(ts[0]) + AllNodes(ts[1..])
  }

  function Roots(ts: seq<Tree>): seq<Node> {
    if ts == [] then [] else [ts[0].node] + Roots(ts[1..])
  }

  /** No node occurs twice. */
  ghost predicate Distinct(t: Tree) {
    t.node !in AllNodes(t.kids) && AllDistinct(t.kids)
  }

  ghost predicate AllDistinct(ts: seq<Tree>) {
    ts == [] || (Distinct(ts[0]) && Nodes(ts[0]) !! AllNodes(ts[1..]) && AllDistinct(ts[1..]))
  }

  /** The heap holds the tree: at each of its nodes the payload, the list of children, and in each child the
      way back. */
  ghost predicate Holds(h: Heap, t: Tree)
    decreases t, 1
  {
    && t.node in h && h[t.node].payload == t.payload && h[t.node].children == Roots(t.kids)
    && AllHeld(h, t.node, t.kids)
  }

  ghost predicate AllHeld(h: Heap, parent: Node, ts: seq<Tree>)
    decreases ts, 0
  {
    ts == [] || (Holds(h, ts[0]) && h[ts[0].node].parent == parent && AllHeld(h, parent, ts[1..]))
  }

  lemma {:induction false} HoldsFrame(h: Heap, h': Heap, t: Tree)
    requires Holds(h, t) && h.Keys <= h'.Keys
    requires forall n | n in Nodes(t) && n in h :: h'[n] == h[n]
    ensures Holds(h', t)
    decreases t, 1
  {
    AllHeldFrame(h, h', t.node, t.kids);
  }

  lemma {:induction false} AllHeldFrame(h: Heap, h': Heap, parent: Node, ts: seq<Tree>)
    requires AllHeld(h, parent, ts) && h.Keys <= h'.Keys
    requires forall n | n in AllNodes(ts) && n in h :: h'[n] == h[n]
    ensures AllHeld(h', parent, ts)
    decreases ts, 0
  {
    if ts != [] {
      HoldsFrame(h, h', ts[0]);
      assert ts[0].node in AllNodes(ts);
      AllHeldFrame(h, h', parent, ts[1..]);
    }
  }

  /** A root's own parent is no part of what the heap holds of a tree. */
  lemma {:induction false} HoldsAnyParent(h: Heap, h': Heap, t: Tree)
    requires Holds(h, t) && Distinct(t) && h.Keys <= h'.Keys
    requires h'[t.node].payload == h[t.node].payload && h'[t.node].children == h[t.node].children
    requires forall n | n in AllNodes(t.kids) && n in h :: h'[n] == h[n]
    ensures Holds(h', t)
  {
    AllHeldFrame(h, h', t.node, t.kids);
  }

  lemma {:induction false} HeldNodesKnown(h: Heap, t: Tree)
    requires Holds(h, t)
    ensures Nodes(t) <= h.Keys
    decreases t, 1
  {
    AllHeldKnown(h, t.node, t.kids);
  }

  lemma {:induction false} AllHeldKnown(h: Heap, parent: Node, ts: seq<Tree>)
    requires AllHeld(h, parent, ts)
    ensures AllNodes(ts) <= h.Keys
    decreases ts, 0
  {
    if ts != [] {
      HeldNodesKnown(h, ts[0]);
      AllHeldKnown(h, parent, ts[1..]);
    }
  }

  lemma {:induction false} RootsAreNodes(ts: seq<Tree>)
    ensures forall n | n in Roots(ts) :: n in AllNodes(ts)
  {
    if ts != [] {
      RootsAreNodes(ts[1..]);
    }
  }

  // ---------- lists of children

  lemma {:induction false} WithoutNodeAbsent(s: seq<Node>, n: Node)
    requires n !in s
    ensures WithoutNode(s, n) == s
  {
    if s != [] {
      WithoutNodeAbsent(s[1..], n);
    }
  }

  lemma {:induction false} WithoutNodeAmid(s: seq<Node>, n: Node, t: seq<Node>)
    requires n !in s && n !in t
    ensures WithoutNode(s + [n] + t, n) == s + t
  {
    if s == [] {
      assert [n] + t == s + [n] + t;
      WithoutNodeAbsent(t, n);
    } else {
      assert (s + [n] + t)[1..] == s[1..] + [n] + t;
      WithoutNodeAmid(s[1..], n, t);
      assert s + t == [s[0]] + (s[1..] + t);
    }
  }

  lemma {:induction false} ExchangedAbsent(s: seq<Node>, n: Node, m: Node)
    requires n !in s
    ensures Exchanged(s, n, m) == s
  {
    if s != [] {
      ExchangedAbsent(s[1..], n, m);
    }
  }

  lemma {:induction false} ExchangedAmid(s: seq<Node>, n: Node, t: seq<Node>, m: Node)
    requires n !in s && n !in t
    ensures Exchanged(s + [n] + t, n, m) == s + [m] + t
  {
    if s == [] {
      assert [n] + t == s + [n] + t;
      ExchangedAbsent(t, n, m);
    } else {
      assert (s + [n] + t)[0] == s[0] && (s + [n] + t)[1..] == s[1..] + [n] + t;
      ExchangedAmid(s[1..], n, t, m);
      ghost var r := Exchanged(s + [n] + t, n, m);
      assert r == [s[0]] + (s[1..] + [m] + t);
      assert r == s + [m] + t;
    }
  }
}
