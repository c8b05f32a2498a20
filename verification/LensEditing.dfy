/** `diff` and `patch` as they run: over live node objects, with loops that push onto a list of operations
    and mutations of the nodes themselves. Each is proved against its counterpart in `Lens` and `Dom`. */
module LensEditing {
  import opened Options
  import opened Dom
  import opened Lens
  import opened LensPlaces
  import opened LensTheorems

  ghost function Snapshot(all: set<Node>): Heap
    reads all
  {
    map n | n in all :: NodeData(n.payload, n.parent, n.children)
  }

  /** No node has a parent outside the set. */
  ghost predicate Closed(all: set<Node>)
    reads all
  {
    forall n | n in all && n.parent != null :: n.parent in all
  }

  // ---------- the document's own operations

  method SetAttribute(n: Node, key: string, value: string, ghost all: set<Node>) returns (ok: bool)
    requires n in all && Closed(all)
    modifies n`payload
    ensures Closed(all)
    ensures ApplyOp(old(Snapshot(all)), Op.SetAttribute(n, key, value)) == if ok then Some(Snapshot(all)) else None
  {
    if !n.payload.Element? {
      return false;
    }
    n.payload := n.payload.(attributes := WithAttribute(n.payload.attributes, key, value));
    ok := true;
    assert Snapshot(all) == ApplyOp(old(Snapshot(all)), Op.SetAttribute(n, key, value)).value;
  }

  method RemoveAttribute(n: Node, key: string, ghost all: set<Node>) returns (ok: bool)
    requires n in all && Closed(all)
    modifies n`payload
    ensures Closed(all)
    ensures ApplyOp(old(Snapshot(all)), Op.RemoveAttribute(n, key)) == if ok then Some(Snapshot(all)) else None
  {
    if !n.payload.Element? {
      return false;
    }
    n.payload := n.payload.(attributes := WithoutAttribute(n.payload.attributes, key));
    ok := true;
    assert Snapshot(all) == ApplyOp(old(Snapshot(all)), Op.RemoveAttribute(n, key)).value;
  }

  method SetText(n: Node, text: string, ghost all: set<Node>) returns (ok: bool)
    requires n in all && Closed(all)
    modifies n`payload
    ensures Closed(all)
    ensures ApplyOp(old(Snapshot(all)), Op.ReplaceText(n, text)) == if ok then Some(Snapshot(all)) else None
  {
    if !n.payload.Text? {
      return false;
    }
    n.payload := Text(text);
    ok := true;
    assert Snapshot(all) == ApplyOp(old(Snapshot(all)), Op.ReplaceText(n, text)).value;
  }

  method Detach(n: Node, ghost all: set<Node>)
    requires n in all && Closed(all)
    modifies n`parent, all`children
    ensures Closed(all) && n.parent == null
    ensures Snapshot(all) == Detached(old(Snapshot(all)), n)
  {
    if n.parent != null {
      var p: Node := n.parent;
      p.children := WithoutNode(p.children, n);
      n.parent := null;
    }
    assert Snapshot(all) == Detached(old(Snapshot(all)), n);
  }

  method ReplaceChild(parent: Node?, with: Node, node: Node, ghost all: set<Node>) returns (ok: bool)
    requires with in all && node in all && parent == node.parent && Closed(all)
    modifies all`parent, all`children
    ensures Closed(all)
    ensures ApplyOp(old(Snapshot(all)), Op.ReplaceNode(node, with)) == if ok then Some(Snapshot(all)) else None
  {
    if parent == null || node == with {
      return false;
    }
    var p: Node := parent;
    Detach(with, all);
    PutInPlace(p, with, node, all);
    ok := true;
  }

  method SetChildren(n: Node, children: seq<Node>, ghost all: set<Node>)
    requires n in all && Closed(all)
    modifies n`children
    ensures Closed(all) && Snapshot(all) == old(Snapshot(all))[n := old(Snapshot(all))[n].(children := children)]
  {
    ghost var h := Snapshot(all);
    n.children := children;
    assert Snapshot(all) == h[n := h[n].(children := children)];
  }

  method SetParent(n: Node, parent: Node?, ghost all: set<Node>)
    requires n in all && Closed(all) && (parent != null ==> parent in all)
    modifies n`parent
    ensures Closed(all) && Snapshot(all) == old(Snapshot(all))[n := old(Snapshot(all))[n].(parent := parent)]
  {
    ghost var h := Snapshot(all);
    n.parent := parent;
    assert Snapshot(all) == h[n := h[n].(parent := parent)];
  }

  lemma ChildrenShown(n: Node, all: set<Node>)
    requires n in all
    ensures n in Snapshot(all) && Snapshot(all)[n].children == n.children && Snapshot(all).Keys == all
  {
  }

  /** The second half of `replaceChild`, once the new child has left its old place. */
  method PutInPlace(p: Node, with: Node, node: Node, ghost all: set<Node>)
    requires p in all && with in all && node in all && Closed(all)
    modifies p`children, with`parent, node`parent
    ensures Closed(all)
    ensures var h1 := old(Snapshot(all));
            var h2 := h1[p := h1[p].(children := Exchanged(h1[p].children, node, with))];
            var h3 := h2[with := h2[with].(parent := p)];
            Snapshot(all) == h3[node := h3[node].(parent := null)]
  {
    ChildrenShown(p, all);
    hide Exchanged, Snapshot, Closed;
    SetChildren(p, Exchanged(p.children, node, with), all);
    SetParent(with, p, all);
    SetParent(node, null, all);
  }

  method AppendChild(n: Node, child: Node, ghost all: set<Node>) returns (ok: bool)
    requires n in all && child in all && Closed(all)
    modifies all`parent, all`children
    ensures Closed(all)
    ensures ApplyOp(old(Snapshot(all)), Op.AppendChild(n, child)) == if ok then Some(Snapshot(all)) else None
  {
    if !CanHaveChildren(n.payload) || n == child {
      return false;
    }
    Detach(child, all);
    n.children := n.children + [child];
    child.parent := n;
    ok := true;
    assert Snapshot(all) == ApplyOp(old(Snapshot(all)), Op.AppendChild(n, child)).value;
  }

  method RemoveChild(n: Node, child: Node, ghost all: set<Node>) returns (ok: bool)
    requires n in all && child in all && Closed(all)
    modifies all`parent, all`children
    ensures Closed(all)
    ensures ApplyOp(old(Snapshot(all)), Op.RemoveChild(n, child)) == if ok then Some(Snapshot(all)) else None
  {
    if child.parent != n {
      return false;
    }
    Detach(child, all);
    ok := true;
  }

  // ---------- patch

  ghost predicate AllKnown(ops: seq<Op>, all: set<Node>) {
    forall i | 0 <= i < |ops| :: Mentioned(ops[i]) <= all
  }

  method PatchOne(op: Op, ghost all: set<Node>) returns (ok: bool)
    requires Mentioned(op) <= all && Closed(all)
    modifies all
    ensures Closed(all)
    ensures Known(old(Snapshot(all)), op)
    ensures ApplyOp(old(Snapshot(all)), op) == if ok then Some(Snapshot(all)) else None
  {
    hide ApplyOp, Snapshot;
    SnapshotKeys(all, op);
    match op {
      case SetAttribute(n, k, v) => ok := SetAttribute(n, k, v, all);
      case RemoveAttribute(n, k) => ok := RemoveAttribute(n, k, all);
      case ReplaceNode(n, m) => ok := ReplaceChild(n.parent, m, n, all);
      case AppendChild(n, c) => ok := AppendChild(n, c, all);
      case RemoveChild(n, c) => ok := RemoveChild(n, c, all);
      case ReplaceText(n, t) => ok := SetText(n, t, all);
    }
  }

  lemma SnapshotKeys(all: set<Node>, op: Op)
    requires Mentioned(op) <= all
    ensures Known(Snapshot(all), op)
  {
  }

  /** `patch` runs the operations in order; where the document throws, it stops. */
  method Patch(ops: seq<Op>, ghost all: set<Node>) returns (ok: bool)
    requires AllKnown(ops, all) && Closed(all)
    modifies all
    ensures Closed(all)
    ensures RunOps(old(Snapshot(all)), ops) == if ok then Some(Snapshot(all)) else None
  {
    hide Snapshot, ApplyOp, Closed, Mentioned;
    ghost var h := Snapshot(all);
    for i := 0 to |ops|
      invariant Closed(all) && RunOps(h, ops[..i]) == Some(Snapshot(all))
    {
      ghost var before := Snapshot(all);
      ok := PatchOne(ops[i], all);
      RunOneMore(h, before, ops, i);
      if !ok {
        return false;
      }
    }
    assert ops[..|ops|] == ops;
    ok := true;
  }

  lemma RunOneMore(h: Heap, before: Heap, ops: seq<Op>, i: nat)
    requires i < |ops| && RunOps(h, ops[..i]) == Some(before) && Known(before, ops[i])
    ensures RunOps(h, ops[..i+1]) == ApplyOp(before, ops[i])
    ensures ApplyOp(before, ops[i]).None? ==> RunOps(h, ops) == None
  {
    hide ApplyOp;
    assert ops[..i+1] == ops[..i] + [ops[i]];
    assert ops == ops[..i] + ops[i..];
    RunConcat(h, ops[..i], [ops[i]]);
    RunConcat(h, ops[..i], ops[i..]);
    assert [ops[i]][0] == ops[i] && [ops[i]][1..] == [];
    if ApplyOp(before, ops[i]).Some? {
      assert RunOps(ApplyOp(before, ops[i]).value, []) == ApplyOp(before, ops[i]);
    }
  }

  // ---------- diffa

  /** A plain object used as a dictionary: its own keys, in the order they are enumerated. */
  type Dictionary = seq<Attribute>

  function AssignKey(d: Dictionary, key: string, value: string): Dictionary {
    if Unassignable(key) then d else WithAttribute(d, key, value)
  }

  /** `key in d`. */
  predicate HasKey(d: Dictionary, key: string) {
    Inherited(key) || exists e | e in d :: e.name == key
  }

  function Assignable(s: seq<Attribute>): seq<Attribute> {
    if s == [] then [] else (if Unassignable(s[0].name) then [] else [s[0]]) + Assignable(s[1..])
  }

  lemma {:induction false} AssignableHas(s: seq<Attribute>)
    ensures forall x :: x in Assignable(s) <==> x in s && !Unassignable(x.name)
  {
    if s != [] {
      AssignableHas(s[1..]);
      assert s == [s[0]] + s[1..];
    }
  }

  lemma {:induction false} AssignableConcat(s: seq<Attribute>, x: Attribute)
    ensures Assignable(s + [x]) == Assignable(s) + if Unassignable(x.name) then [] else [x]
  {
    hide Unassignable;
    if s == [] {
      assert [x][1..] == [] && s + [x] == [x];
    } else {
      assert (s + [x])[0] == s[0] && (s + [x])[1..] == s[1..] + [x];
      AssignableConcat(s[1..], x);
      var head, last := if Unassignable(s[0].name) then [] else [s[0]], if Unassignable(x.name) then [] else [x];
      assert head + (Assignable(s[1..]) + last) == head + Assignable(s[1..]) + last;
    }
  }

  lemma {:induction false} StoreFresh(d: Dictionary, x: Attribute)
    requires forall e | e in d :: e.name != x.name
    ensures WithAttribute(d, x.name, x.value) == d + [x]
  {
    if d != [] {
      assert d[0] in d;
      StoreFresh(d[1..], x);
      assert d + [x] == [d[0]] + (d[1..] + [x]);
    }
  }

  /** The loop that copies a node's attributes into a dictionary. */
  method ToDictionary(attributes: seq<Attribute>) returns (d: Dictionary)
    requires DistinctNames(attributes)
    ensures d == Assignable(attributes)
  {
    d := [];
    for i := 0 to |attributes|
      invariant d == Assignable(attributes[..i])
    {
      var x := attributes[i];
      assert attributes[..i+1] == attributes[..i] + [x];
      AssignableConcat(attributes[..i], x);
      AssignableHas(attributes[..i]);
      if !Unassignable(x.name) {
        StoreFresh(d, x);
      }
      d := AssignKey(d, x.name, x.value);
    }
    assert attributes[..|attributes|] == attributes;
  }

  lemma {:induction false} RemoveOpsByKeys(n: Node, from: seq<Attribute>, b: seq<Attribute>)
    ensures RemoveOps(n, Assignable(from), b) == RemoveOps(n, from, b)
  {
    hide Inherited, Owns, Unassignable;
    if from != [] {
      RemoveOpsByKeys(n, from[1..], b);
      if Unassignable(from[0].name) {
        assert RemoveOps(n, from, b) == RemoveOps(n, from[1..], b);
        assert Assignable(from) == Assignable(from[1..]);
      } else {
        assert Assignable(from)[0] == from[0] && Assignable(from)[1..] == Assignable(from[1..]);
      }
    }
  }

  lemma {:induction false} SetOpsByKeys(n: Node, from: seq<Attribute>, a: seq<Attribute>)
    ensures SetOps(n, Assignable(from), a) == SetOps(n, from, a)
  {
    hide Unassignable;
    if from != [] {
      SetOpsByKeys(n, from[1..], a);
      if Unassignable(from[0].name) {
        assert SetOps(n, from, a) == SetOps(n, from[1..], a);
        assert Assignable(from) == Assignable(from[1..]);
      } else {
        assert Assignable(from)[0] == from[0] && Assignable(from)[1..] == Assignable(from[1..]);
      }
    }
  }

  lemma {:induction false} RemoveOpsConcat(n: Node, s: seq<Attribute>, x: Attribute, b: seq<Attribute>)
    ensures RemoveOps(n, s + [x], b) == RemoveOps(n, s, b)
            + if ToRemove(x, b) then [Op.RemoveAttribute(n, x.name)] else []
  {
    hide ToRemove;
    if s == [] {
      assert s + [x] == [x];
    } else {
      assert (s + [x])[0] == s[0] && (s + [x])[1..] == s[1..] + [x];
      RemoveOpsConcat(n, s[1..], x, b);
      var head := if ToRemove(s[0], b) then [Op.RemoveAttribute(n, s[0].name)] else [];
      var last := if ToRemove(x, b) then [Op.RemoveAttribute(n, x.name)] else [];
      assert head + (RemoveOps(n, s[1..], b) + last) == head + RemoveOps(n, s[1..], b) + last;
    }
  }

  lemma {:induction false} SetOpsConcat(n: Node, s: seq<Attribute>, x: Attribute, a: seq<Attribute>)
    ensures SetOps(n, s + [x], a) == SetOps(n, s, a) + if ToSet(x, a) then [Op.SetAttribute(n, x.name, x.value)] else []
  {
    hide ToSet;
    if s == [] {
      assert s + [x] == [x];
    } else {
      assert (s + [x])[0] == s[0] && (s + [x])[1..] == s[1..] + [x];
      SetOpsConcat(n, s[1..], x, a);
      var head := if ToSet(s[0], a) then [Op.SetAttribute(n, s[0].name, s[0].value)] else [];
      var last := if ToSet(x, a) then [Op.SetAttribute(n, x.name, x.value)] else [];
      assert head + (SetOps(n, s[1..], a) + last) == head + SetOps(n, s[1..], a) + last;
    }
  }

  lemma EnumeratedElements(s: seq<Attribute>)
    ensures forall x :: x in Enumerated(s) <==> x in s
  {
    PickedElements(s);
    assert multiset(Enumerated(s)) == multiset(s);
    Sorting.SameElements(Enumerated(s), s);
  }

  lemma PickedCons(x: Attribute, r: seq<Attribute>, indices: bool)
    ensures Picked([x] + r, indices) ==
            if IsIndex(x.name) == indices then [x] + Picked(r, indices) else Picked(r, indices)
  {
    assert ([x] + r)[0] == x && ([x] + r)[1..] == r;
    hide IsIndex;
  }

  lemma AssignableCons(x: Attribute, r: seq<Attribute>)
    ensures Assignable([x] + r) == if Unassignable(x.name) then Assignable(r) else [x] + Assignable(r)
  {
    assert ([x] + r)[0] == x && ([x] + r)[1..] == r;
    hide Unassignable;
  }

  lemma {:induction false} PickedAssignable(s: seq<Attribute>)
    ensures Picked(Assignable(s), true) == Picked(s, true)
    ensures Picked(Assignable(s), false) == Assignable(Picked(s, false))
  {
    if s != [] {
      hide *;
      var x, rest := s[0], s[1..];
      assert s == [x] + rest;
      PickedAssignable(rest);
      IndexAssignable(x.name);
      AssignableCons(x, rest);
      PickedCons(x, rest, true);
      PickedCons(x, rest, false);
      PickedCons(x, Assignable(rest), true);
      PickedCons(x, Assignable(rest), false);
      AssignableCons(x, Picked(rest, false));
    }
  }

  lemma {:induction false} PickedAreIndices(s: seq<Attribute>)
    ensures forall x | x in Picked(s, true) :: IsIndex(x.name)
  {
    hide IsIndex;
    if s != [] {
      PickedAreIndices(s[1..]);
    }
  }

  lemma IndexAssignable(name: string)
    ensures IsIndex(name) ==> !Unassignable(name)
  {
    if name == "__proto__" {
      assert name[0] == '_';
    }
  }

  lemma {:induction false} AllAssignable(s: seq<Attribute>)
    requires forall x | x in s :: !Unassignable(x.name)
    ensures Assignable(s) == s
  {
    hide Unassignable;
    if s != [] {
      AllAssignable(s[1..]);
    }
  }

  lemma {:induction false} AssignableSum(s: seq<Attribute>, t: seq<Attribute>)
    ensures Assignable(s + t) == Assignable(s) + Assignable(t)
  {
    hide Unassignable;
    if s == [] {
      assert s + t == t;
    } else {
      assert (s + t)[0] == s[0] && (s + t)[1..] == s[1..] + t;
      AssignableSum(s[1..], t);
      var head := if Unassignable(s[0].name) then [] else [s[0]];
      assert head + (Assignable(s[1..]) + Assignable(t)) == head + Assignable(s[1..]) + Assignable(t);
    }
  }

  lemma AssignableEnumerated(s: seq<Attribute>)
    ensures Enumerated(Assignable(s)) == Assignable(Enumerated(s))
  {
    hide IsIndex, Unassignable, Assignable, Picked;
    PickedAssignable(s);
    var p, q := Picked(s, true), Picked(s, false);
    var sorted := Sorting.Sort(ByIndex, p);
    Sorting.SameElements(sorted, p);
    PickedAreIndices(s);
    forall x | x in sorted
      ensures !Unassignable(x.name)
    {
      IndexAssignable(x.name);
    }
    AllAssignable(sorted);
    AssignableSum(sorted, q);
  }

  /** The first loop over keys: what only the old node has is to be removed. */
  method PushRemovals(n: Node, da: Dictionary, db: Dictionary, ghost b: seq<Attribute>) returns (ops: seq<Op>)
    requires db == Assignable(b) && forall x | x in da :: !Unassignable(x.name)
    ensures ops == RemoveOps(n, Enumerated(da), b)
  {
    ops := [];
    AssignableHas(b);
    EnumeratedElements(da);
    var keys := Enumerated(da);
    hide Inherited, Enumerated;
    for i := 0 to |keys|
      invariant ops == RemoveOps(n, keys[..i], b)
    {
      var attr := keys[i].name;
      assert keys[..i+1] == keys[..i] + [keys[i]];
      RemoveOpsConcat(n, keys[..i], keys[i], b);
      assert keys[i] in keys;
      assert ToRemove(keys[i], b) <==> !HasKey(db, attr);
      if !HasKey(db, attr) {
        ops := ops + [Op.RemoveAttribute(n, attr)];
      }
    }
    assert keys[..|keys|] == keys;
  }

  /** The second loop: what the old node lacks, or has with another value, is to be set. A name that every
      object inherits is found, but with a value that is no string. */
  method PushSettings(n: Node, da: Dictionary, db: Dictionary, ghost a: seq<Attribute>) returns (ops: seq<Op>)
    requires da == Assignable(a) && forall x | x in db :: !Unassignable(x.name)
    ensures ops == SetOps(n, Enumerated(db), a)
  {
    ops := [];
    AssignableHas(a);
    EnumeratedElements(db);
    var keys := Enumerated(db);
    hide Inherited, Enumerated;
    for i := 0 to |keys|
      invariant ops == SetOps(n, keys[..i], a)
    {
      var attr := keys[i].name;
      assert keys[..i+1] == keys[..i] + [keys[i]];
      SetOpsConcat(n, keys[..i], keys[i], a);
      assert keys[i] in keys && Attribute(attr, keys[i].value) == keys[i];
      if !HasKey(da, attr) || Attribute(attr, keys[i].value) !in da {
        ops := ops + [Op.SetAttribute(n, attr, keys[i].value)];
      }
    }
    assert keys[..|keys|] == keys;
  }

  method DiffAttributes(a: Node, b: Node) returns (ops: seq<Op>)
    requires a.payload.Element? && b.payload.Element?
    requires DistinctNames(a.payload.attributes) && DistinctNames(b.payload.attributes)
    ensures ops == AttributeOps(a, a.payload.attributes, b.payload.attributes)
  {
    hide RemoveOps, SetOps, Assignable, DistinctNames, Unassignable, Enumerated;
    var da := ToDictionary(a.payload.attributes);
    var db := ToDictionary(b.payload.attributes);
    AssignableHas(a.payload.attributes);
    AssignableHas(b.payload.attributes);
    var removals := PushRemovals(a, da, db, b.payload.attributes);
    var settings := PushSettings(a, da, db, a.payload.attributes);
    AssignableEnumerated(a.payload.attributes);
    AssignableEnumerated(b.payload.attributes);
    RemoveOpsByKeys(a, Enumerated(a.payload.attributes), b.payload.attributes);
    SetOpsByKeys(a, Enumerated(b.payload.attributes), a.payload.attributes);
    ops := removals + settings;
  }

  // ---------- diff

  lemma {:induction false} HeldAt(h: Heap, parent: Node, ts: seq<Tree>, i: nat)
    requires AllHeld(h, parent, ts) && AllNamesOk(ts) && i < |ts|
    ensures Holds(h, ts[i]) && |Roots(ts)| == |ts| && Roots(ts)[i] == ts[i].node && NamesOk(ts[i])
  {
    if i > 0 {
      HeldAt(h, parent, ts[1..], i - 1);
    } else {
      RootsLength(ts);
    }
  }

  lemma {:induction false} RootsLength(ts: seq<Tree>)
    ensures |Roots(ts)| == |ts|
  {
    if ts != [] {
      RootsLength(ts[1..]);
    }
  }

  lemma {:induction false} RemoveKidsConcat(n: Node, s: seq<Tree>, x: Tree)
    ensures RemoveKids(n, s + [x]) == RemoveKids(n, s) + [Op.RemoveChild(n, x.node)]
  {
    if s == [] {
      assert s + [x] == [x];
    } else {
      assert (s + [x])[0] == s[0] && (s + [x])[1..] == s[1..] + [x];
      RemoveKidsConcat(n, s[1..], x);
    }
  }

  /** What is left of a list from index `i` on. */
  function From(ts: seq<Tree>, i: nat): seq<Tree> {
    if i <= |ts| then ts[i..] else []
  }

  lemma KidsOpsFrom(n: Node, a: seq<Tree>, b: seq<Tree>, i: nat)
    requires i < |b|
    ensures KidsOps(n, From(a, i), b[i..]) ==
              (if i < |a| then NodeOps(a[i], b[i]) else [Op.AppendChild(n, b[i].node)])
                  + KidsOps(n, From(a, i + 1), b[i+1..])
  {
    assert b[i..][0] == b[i] && b[i..][1..] == b[i+1..];
    if i < |a| {
      assert a[i..][0] == a[i] && a[i..][1..] == a[i+1..];
    }
  }

  /** `diffn`: compare one pair of nodes. */
  method DiffNode(a: Node, b: Node, ghost all: set<Node>, ghost ta: Tree, ghost tb: Tree) returns (ops: seq<Op>)
    requires Holds(Snapshot(all), ta) && Holds(Snapshot(all), tb) && ta.node == a && tb.node == b
    requires NamesOk(ta) && NamesOk(tb)
    ensures ops == NodeOps(ta, tb)
    ensures a.payload.Element? && b.payload.Element? && a.payload.localName == b.payload.localName ==>
              ops == AttributeOps(a, a.payload.attributes, b.payload.attributes) + Script(ta, tb)
    ensures a.payload.Text? && b.payload.Text? ==>
              ops == (if a.payload.data == b.payload.data then [] else [Op.ReplaceText(a, b.payload.data)])
                     + Script(ta, tb)
    ensures (a.payload.Element? && b.payload.Element? && a.payload.localName == b.payload.localName)
            || (a.payload.Text? && b.payload.Text?) || ops == [Op.ReplaceNode(a, b)]
    decreases tb, 1
  {
    assert a in all && b in all;
    if a.payload.Element? && b.payload.Element? && a.payload.localName == b.payload.localName {
      var own := DiffAttributes(a, b);
      var kids := Diff(a, b, all, ta, tb);
      ops := own + kids;
    } else if a.payload.Text? && b.payload.Text? {
      var own := if a.payload.data == b.payload.data then [] else [Op.ReplaceText(a, b.payload.data)];
      var kids := Diff(a, b, all, ta, tb);
      ops := own + kids;
    } else {
      ops := [Op.ReplaceNode(a, b)];
    }
  }

  /** A held node's children are its trees' roots, each held in turn. */
  lemma HeldKids(h: Heap, t: Tree)
    requires Holds(h, t) && NamesOk(t)
    ensures t.node in h && h[t.node].children == Roots(t.kids) && |Roots(t.kids)| == |t.kids|
    ensures forall i | 0 <= i < |t.kids| ::
            Holds(h, t.kids[i]) && Roots(t.kids)[i] == t.kids[i].node && NamesOk(t.kids[i])
  {
    RootsLength(t.kids);
    assert AllHeld(h, t.node, t.kids) && AllNamesOk(t.kids);
    hide Holds, AllHeld, AllNamesOk, NamesOk;
    forall i | 0 <= i < |t.kids|
      ensures Holds(h, t.kids[i]) && Roots(t.kids)[i] == t.kids[i].node && NamesOk(t.kids[i])
    {
      HeldAt(h, t.node, t.kids, i);
    }
  }

  /** What is still to be done after `i` children of the target, following what has been done. */
  ghost predicate Remaining(ops: seq<Op>, ta: Tree, tb: Tree, i: nat) {
    i <= |tb.kids| && ops + KidsOps(ta.node, From(ta.kids, i), tb.kids[i..]) == Script(ta, tb)
  }

  lemma RemainingStart(ta: Tree, tb: Tree)
    ensures Remaining([], ta, tb, 0)
  {
    assert ta.kids[0..] == ta.kids && tb.kids[0..] == tb.kids;
    assert [] + Script(ta, tb) == Script(ta, tb);
    hide KidsOps;
  }

  lemma RemainingStep(ops: seq<Op>, ta: Tree, tb: Tree, i: nat, more: seq<Op>)
    requires Remaining(ops, ta, tb, i) && i < |tb.kids|
    requires more ==
             if i < |ta.kids| then NodeOps(ta.kids[i], tb.kids[i]) else [Op.AppendChild(ta.node, tb.kids[i].node)]
    ensures Remaining(ops + more, ta, tb, i + 1)
  {
    KidsOpsFrom(ta.node, ta.kids, tb.kids, i);
    hide KidsOps, NodeOps;
    var rest := KidsOps(ta.node, From(ta.kids, i + 1), tb.kids[i+1..]);
    assert ops + (more + rest) == ops + more + rest;
  }

  lemma RemainingEnd(ops: seq<Op>, ta: Tree, tb: Tree)
    requires Remaining(ops, ta, tb, |tb.kids|)
    ensures ops + RemoveKids(ta.node, From(ta.kids, |tb.kids|)) == Script(ta, tb)
  {
    assert tb.kids[|tb.kids|..] == [];
  }

  /** `diff`: pair up the children, append what `b` has more, remove what `a` has more. */
  method Diff(a: Node, b: Node, ghost all: set<Node>, ghost ta: Tree, ghost tb: Tree) returns (ops: seq<Op>)
    requires Holds(Snapshot(all), ta) && Holds(Snapshot(all), tb) && ta.node == a && tb.node == b
    requires NamesOk(ta) && NamesOk(tb)
    ensures ops == Script(ta, tb)
    decreases tb, 0
  {
    assert a in all && b in all;
    ops := [];
    HeldKids(Snapshot(all), ta);
    HeldKids(Snapshot(all), tb);
    RemainingStart(ta, tb);
    hide Holds, AllHeld, NamesOk, KidsOps, NodeOps, Script, Remaining;
    for i := 0 to |b.children|
      invariant Remaining(ops, ta, tb, i)
    {
      var more;
      if i >= |a.children| {
        more := [Op.AppendChild(a, b.children[i])];
      } else {
        more := DiffNode(a.children[i], b.children[i], all, ta.kids[i], tb.kids[i]);
      }
      RemainingStep(ops, ta, tb, i, more);
      ops := ops + more;
    }
    RemainingEnd(ops, ta, tb);
    ops := PushRemoved(a, |b.children|, ops, ta, all);
  }

  /** The last loop of `diff`. */
  method PushRemoved(a: Node, from: nat, done: seq<Op>, ghost ta: Tree, ghost all: set<Node>) returns (ops: seq<Op>)
    requires Holds(Snapshot(all), ta) && NamesOk(ta) && ta.node == a
    ensures ops == done + RemoveKids(a, From(ta.kids, from))
  {
    assert a in all;
    hide NodeOps, KidsOps;
    ops := done;
    RootsLength(ta.kids);
    ghost var h := Snapshot(all);
    var i := from;
    while i < |a.children|
      invariant from <= i && (from <= |ta.kids| ==> i <= |ta.kids|)
      invariant ops == done + RemoveKids(a, if i <= |ta.kids| then ta.kids[from..i] else [])
    {
      HeldAt(h, a, ta.kids, i);
      assert ta.kids[from..i+1] == ta.kids[from..i] + [ta.kids[i]];
      RemoveKidsConcat(a, ta.kids[from..i], ta.kids[i]);
      ops := ops + [Op.RemoveChild(a, a.children[i])];
      i := i + 1;
    }
    assert from <= |ta.kids| ==> ta.kids[from..i] == ta.kids[from..];
  }

  // ---------- a redraw

  lemma ScriptIsKnown(h: Heap, a: Tree, b: Tree, all: set<Node>)
    requires TwoTrees(h, a, b) && h.Keys == all
    ensures AllKnown(Script(a, b), all)
  {
    KidsOpsOrderly(a.node, a.kids, b.kids);
    HeldNodesKnown(h, a);
    HeldNodesKnown(h, b);
    hide Orderly, KidsOps, Mentioned, TwoTrees;
  }

  /** `patch(a, diff(a, b))`: nothing throws, and `a` holds the target's children exactly when the attribute
      names are safe. */
  method DiffAndPatch(a: Node, b: Node, ghost all: set<Node>, ghost ta: Tree, ghost tb: Tree)
    requires TwoTrees(Snapshot(all), ta, tb) && ta.node == a && tb.node == b && Closed(all)
    modifies all
    ensures var kids := PatchedKids(ta.kids, tb.kids);
            && Holds(Snapshot(all), Tree(a, ta.payload, kids))
            && (ShapesOf(kids) == ShapesOf(tb.kids) <==> KidsSafe(ta.kids, tb.kids))
            && KeepsNodes(ta.kids, tb.kids, kids)
    ensures forall n | n in all && n !in Nodes(ta) + Nodes(tb) :: Snapshot(all)[n] == old(Snapshot(all)[n])
  {
    ghost var h := Snapshot(all);
    ScriptIsKnown(h, ta, tb, all);
    DiffThenPatch(h, ta, tb);
    AllNodesKept(ta.kids, tb.kids);
    hide KeepsNodes;
    var ops := Diff(a, b, all, ta, tb);
    var ok := Patch(ops, all);
  }
}
