/** `recurseTree` of `server/core.go`: collecting the string leaves of a YAML tree, each with its dotted path.
    The recursion hands down one growing path slice; siblings overwrite each other's last element in the
    shared backing array, and only when the array is full does `append` move to a new one. */
module YamlKeys {
  import opened Numerals
  import opened Options
  import opened Slices

  datatype Key = StringKey(s: string) | IntKey(n: int) | BoolKey(b: bool) | OtherKey
  datatype Yaml = Leaf(value: string) | Mapping(entries: seq<Entry>) | Listing(items: seq<Yaml>) | OtherScalar
  datatype Entry = Entry(key: Key, value: Yaml)
  datatype YamlKey = YamlKey(path: string, value: string)

  function KeyString(k: Key): string {
    match k
    case StringKey(s) => s
    case IntKey(n) => Decimal(n)
    case BoolKey(b) => if b then "true" else "false"
    case OtherKey => ""
  }

  function Dotted(path: seq<string>): string {
    if path == [] then []
    else if |path| == 1 then path[0]
    else path[0] + "." + Dotted(path[1..])
  }

  function TreePath(path: seq<string>): string {
    if |path| == 0 then "(root)" else Dotted(path)
  }

  // ---------- the reference: every call has a path of its own

  function Leaves(t: Yaml, path: seq<string>): multiset<YamlKey>
    decreases t, 1
  {
    match t
    case Leaf(v) => multiset{YamlKey(TreePath(path), v)}
    case Mapping(es) => LeavesOfEntries(es, path)
    case Listing(ys) => LeavesOfItems(ys, 0, path)
    case OtherScalar => multiset{}
  }

  function LeavesOfEntries(es: seq<Entry>, path: seq<string>): multiset<YamlKey>
    decreases es, 0
  {
    if es == [] then multiset{} else
      assert (es decreases to es[0]) && (es[0] decreases to es[0].value);
      Leaves(es[0].value, path + [KeyString(es[0].key)]) + LeavesOfEntries(es[1..], path)
  }

  function LeavesOfItems(ys: seq<Yaml>, i: nat, path: seq<string>): multiset<YamlKey>
    decreases ys, 0
  {
    if ys == [] then multiset{}
    else Leaves(ys[0], path + [Decimal(i)]) + LeavesOfItems(ys[1..], i + 1, path)
  }

  lemma FirstEntry(es: seq<Entry>, path: seq<string>)
    requires es != []
    ensures LeavesOfEntries(es, path)
         == Leaves(es[0].value, path + [KeyString(es[0].key)]) + LeavesOfEntries(es[1..], path)
  {
    hide Leaves, KeyString;
  }

  /** Entries may be visited in any order. */
  lemma {:induction false} TakeEntry(es: seq<Entry>, j: nat, path: seq<string>)
    requires j < |es|
    ensures LeavesOfEntries(es, path)
         == LeavesOfEntries(es[..j] + es[j+1..], path) + Leaves(es[j].value, path + [KeyString(es[j].key)])
  {
    hide *;
    FirstEntry(es, path);
    var r := es[..j] + es[j+1..];
    if j == 0 {
      assert r == es[1..];
    } else {
      TakeEntry(es[1..], j - 1, path);
      SplitEntries(es, j);
      FirstEntry(r, path);
    }
  }

  lemma SplitEntries(es: seq<Entry>, j: nat)
    requires 0 < j < |es|
    ensures var r := es[..j] + es[j+1..];
            r != [] && r[0] == es[0] && r[1..] == es[1..][..j-1] + es[1..][j..] && es[1..][j-1] == es[j]
  {
  }

  // ---------- what the reference finds: every string in the tree, once

  /** A place in a tree: the position of the child to go to, at each step. */
  type Address = seq<nat>

  function StringAt(t: Yaml, at: Address): Option<string> {
    if at == [] then if t.Leaf? then Some(t.value) else None
    else if t.Mapping? && at[0] < |t.entries| then StringAt(t.entries[at[0]].value, at[1..])
    else if t.Listing? && at[0] < |t.items| then StringAt(t.items[at[0]], at[1..])
    else None
  }

  /** The texts of the keys, and the indices in lists, on the way to a place. */
  function TextsAlong(t: Yaml, at: Address): seq<string> {
    if at == [] then []
    else if t.Mapping? && at[0] < |t.entries| then
      [KeyString(t.entries[at[0]].key)] + TextsAlong(t.entries[at[0]].value, at[1..])
    else if t.Listing? && at[0] < |t.items| then [Decimal(at[0])] + TextsAlong(t.items[at[0]], at[1..])
    else []
  }

  function KeyAt(t: Yaml, at: Address, path: seq<string>): YamlKey {
    YamlKey(TreePath(path + TextsAlong(t, at)), if StringAt(t, at).Some? then StringAt(t, at).value else "")
  }

  function KeysAt(t: Yaml, places: seq<Address>, path: seq<string>): (r: seq<YamlKey>)
    ensures |r| == |places| && forall i | 0 <= i < |places| :: r[i] == KeyAt(t, places[i], path)
  {
    seq(|places|, i requires 0 <= i < |places| => KeyAt(t, places[i], path))
  }

  /** All places of strings that start at child `from` or later, each once. */
  ghost predicate AllPlaces(t: Yaml, places: seq<Address>, from: nat) {
    && (forall i, j | 0 <= i < j < |places| :: places[i] != places[j])
    && forall at: Address :: at in places <==> StringAt(t, at).Some? && (at != [] ==> at[0] >= from)
  }

  /** One entry for each string in the tree, with the way to it as its path, and nothing else. */
  ghost predicate FindsAll(t: Yaml, path: seq<string>, ret: multiset<YamlKey>) {
    exists places :: AllPlaces(t, places, 0) && ret == multiset(KeysAt(t, places, path))
  }

  function Under(i: nat, places: seq<Address>): (r: seq<Address>)
    ensures |r| == |places| && forall j | 0 <= j < |places| :: r[j] == [i] + places[j]
  {
    seq(|places|, j requires 0 <= j < |places| => [i] + places[j])
  }

  /** The child at a position, with the text of the way to it. */
  ghost predicate IsChild(t: Yaml, i: nat, child: Yaml, text: string) {
    || (t.Mapping? && i < |t.entries| && child == t.entries[i].value && text == KeyString(t.entries[i].key))
    || (t.Listing? && i < |t.items| && child == t.items[i] && text == Decimal(i))
  }

  lemma ChildAt(t: Yaml, i: nat, child: Yaml, text: string, at: Address, path: seq<string>)
    requires IsChild(t, i, child, text)
    ensures StringAt(t, [i] + at) == StringAt(child, at)
    ensures KeyAt(t, [i] + at, path) == KeyAt(child, at, path + [text])
  {
    assert ([i] + at)[0] == i && ([i] + at)[1..] == at;
    assert path + ([text] + TextsAlong(child, at)) == path + [text] + TextsAlong(child, at);
    hide TreePath, KeyString, Decimal;
  }

  lemma PlacesUnder(t: Yaml, i: nat, child: Yaml, text: string, places: seq<Address>, path: seq<string>)
    requires IsChild(t, i, child, text)
    ensures KeysAt(t, Under(i, places), path) == KeysAt(child, places, path + [text])
  {
    hide KeyAt, IsChild, KeysAt, Under;
    forall j | 0 <= j < |places|
      ensures KeyAt(t, [i] + places[j], path) == KeyAt(child, places[j], path + [text])
    {
      ChildAt(t, i, child, text, places[j], path);
    }
  }

  /** The places below one child, before those from the next child on. */
  lemma OneMoreChild(t: Yaml, i: nat, child: Yaml, text: string, places: seq<Address>, rest: seq<Address>,
                     path: seq<string>)
    requires IsChild(t, i, child, text) && AllPlaces(child, places, 0) && AllPlaces(t, rest, i + 1)
    ensures AllPlaces(t, Under(i, places) + rest, i)
    ensures multiset(KeysAt(t, Under(i, places) + rest, path))
         == multiset(KeysAt(child, places, path + [text])) + multiset(KeysAt(t, rest, path))
  {
    PlacesUnder(t, i, child, text, places, path);
    assert KeysAt(t, Under(i, places) + rest, path) == KeysAt(t, Under(i, places), path) + KeysAt(t, rest, path);
    hide KeyAt, KeysAt;
    var all := Under(i, places) + rest;
    NotALeaf(t, i, child, text);
    forall at: Address
      ensures at in all <==> StringAt(t, at).Some? && (at != [] ==> at[0] >= i)
    {
      BelowOrRest(t, i, child, text, places, rest, at, path);
    }
    DistinctUnder(t, i, places, rest);
  }

  lemma NotALeaf(t: Yaml, i: nat, child: Yaml, text: string)
    requires IsChild(t, i, child, text)
    ensures StringAt(t, []) == None
  {
  }

  lemma BelowOrRest(t: Yaml, i: nat, child: Yaml, text: string, places: seq<Address>, rest: seq<Address>, at: Address,
                    path: seq<string>)
    requires IsChild(t, i, child, text) && AllPlaces(child, places, 0) && AllPlaces(t, rest, i + 1)
    requires StringAt(t, []) == None
    ensures at in Under(i, places) + rest <==> StringAt(t, at).Some? && (at != [] ==> at[0] >= i)
  {
    hide IsChild, StringAt, KeyAt, Under;
    var all := Under(i, places) + rest;
    assert at in all <==> at in Under(i, places) || at in rest;
    if at != [] && at[0] == i {
      assert at == [i] + at[1..];
      ChildAt(t, i, child, text, at[1..], path);
      InUnder(i, places, at[1..]);
    } else {
      NotUnder(i, places, at);
    }
  }

  lemma InUnder(i: nat, places: seq<Address>, at: Address)
    ensures [i] + at in Under(i, places) <==> at in places
  {
    if [i] + at in Under(i, places) {
      var j :| 0 <= j < |places| && [i] + places[j] == [i] + at;
      assert ([i] + places[j])[1..] == places[j] && ([i] + at)[1..] == at;
    }
    if at in places {
      var j :| 0 <= j < |places| && places[j] == at;
      assert Under(i, places)[j] == [i] + at;
    }
  }

  lemma NotUnder(i: nat, places: seq<Address>, at: Address)
    requires at == [] || at[0] != i
    ensures at !in Under(i, places)
  {
    forall j | 0 <= j < |places|
      ensures Under(i, places)[j] != at
    {
      assert Under(i, places)[j][0] == i;
    }
  }

  lemma DistinctUnder(t: Yaml, i: nat, places: seq<Address>, rest: seq<Address>)
    requires (forall j, k | 0 <= j < k < |places| :: places[j] != places[k]) && AllPlaces(t, rest, i + 1)
    requires StringAt(t, []) == None
    ensures var all := Under(i, places) + rest; forall j, k | 0 <= j < k < |all| :: all[j] != all[k]
  {
    hide StringAt;
    var all := Under(i, places) + rest;
    forall j, k | 0 <= j < k < |all|
      ensures all[j] != all[k]
    {
      if k < |places| {
        assert ([i] + places[j])[1..] == places[j] && ([i] + places[k])[1..] == places[k];
      } else if j < |places| {
        assert all[k] in rest && all[j][0] == i;
      }
    }
  }

  lemma {:induction false} LeavesFindAll(t: Yaml, path: seq<string>)
    ensures FindsAll(t, path, Leaves(t, path))
    decreases t, 1
  {
    var places: seq<Address>;
    match t
    case Leaf(v) =>
      places := [[]];
      assert path + [] == path;
      assert KeysAt(t, places, path) == [YamlKey(TreePath(path), v)];
      assert AllPlaces(t, places, 0);
    case Mapping(es) =>
      places := EntriesFindAll(t, es, 0, path);
      assert es[0..] == es;
    case Listing(ys) =>
      places := ItemsFindAll(t, ys, 0, path);
      assert ys[0..] == ys;
    case OtherScalar =>
      places := [];
      assert AllPlaces(t, places, 0) && KeysAt(t, places, path) == [];
  }

  lemma {:induction false} EntriesFindAll(t: Yaml, es: seq<Entry>, i: nat, path: seq<string>)
    returns (places: seq<Address>)
    requires t == Mapping(es) && i <= |es|
    ensures AllPlaces(t, places, i) && LeavesOfEntries(es[i..], path) == multiset(KeysAt(t, places, path))
    decreases t, 0, |es| - i
  {
    if i == |es| {
      places := [];
      NoEntries(path);
      assert es[i..] == [] && KeysAt(t, [], path) == [];
      NothingFrom(t, i);
    } else {
      var child, text := es[i].value, KeyString(es[i].key);
      assert es[i] in es && child < t;
      LeavesFindAll(child, path + [text]);
      var below :| AllPlaces(child, below, 0)
        && Leaves(child, path + [text]) == multiset(KeysAt(child, below, path + [text]));
      var rest := EntriesFindAll(t, es, i + 1, path);
      OneMoreChild(t, i, child, text, below, rest, path);
      places := Under(i, below) + rest;
      FirstEntry(es[i..], path);
      assert es[i..][1..] == es[i+1..];
      hide *;
    }
  }

  lemma {:induction false} ItemsFindAll(t: Yaml, ys: seq<Yaml>, i: nat, path: seq<string>)
    returns (places: seq<Address>)
    requires t == Listing(ys) && i <= |ys|
    ensures AllPlaces(t, places, i) && LeavesOfItems(ys[i..], i, path) == multiset(KeysAt(t, places, path))
    decreases t, 0, |ys| - i
  {
    if i == |ys| {
      places := [];
      assert ys[i..] == [] && KeysAt(t, [], path) == [];
      NothingFrom(t, i);
    } else {
      var child, text := ys[i], Decimal(i);
      assert ys[i] in ys && child < t;
      LeavesFindAll(child, path + [text]);
      var below :| AllPlaces(child, below, 0)
        && Leaves(child, path + [text]) == multiset(KeysAt(child, below, path + [text]));
      var rest := ItemsFindAll(t, ys, i + 1, path);
      OneMoreChild(t, i, child, text, below, rest, path);
      places := Under(i, below) + rest;
      assert ys[i..][0] == child && ys[i..][1..] == ys[i+1..];
      assert LeavesOfItems(ys[i..], i, path) == Leaves(child, path + [text]) + LeavesOfItems(ys[i+1..], i + 1, path);
      hide *;
    }
  }

  lemma NothingFrom(t: Yaml, i: nat)
    requires (t.Mapping? && i == |t.entries|) || (t.Listing? && i == |t.items|)
    ensures AllPlaces(t, [], i)
  {
  }

  /** The texts themselves. */
  lemma PathTexts(path: seq<string>, key: string)
    ensures TreePath([]) == "(root)" && TreePath([key]) == key
    ensures path != [] ==> TreePath(path + [key]) == TreePath(path) + "." + key
  {
    if path != [] {
      DottedConcat(path, key);
    }
  }

  lemma {:induction false} DottedConcat(path: seq<string>, key: string)
    requires path != []
    ensures Dotted(path + [key]) == Dotted(path) + "." + key
  {
    if |path| == 1 {
      assert (path + [key])[1..] == [key];
    } else {
      DottedConcat(path[1..], key);
      assert (path + [key])[0] == path[0] && (path + [key])[1..] == path[1..] + [key];
      assert path[0] + "." + (Dotted(path[1..]) + "." + key) == path[0] + "." + Dotted(path[1..]) + "." + key;
    }
  }

  lemma KeyTexts(s: string)
    ensures KeyString(StringKey(s)) == s && KeyString(OtherKey) == ""
    ensures KeyString(BoolKey(true)) == "true" && KeyString(BoolKey(false)) == "false"
    ensures KeyString(IntKey(-70)) == "-70" && KeyString(IntKey(1234567890)) == "1234567890"
  {
    NumeralExample();
  }

  // ---------- the code

  /** The recursion over the shared buffer finds what the recursion over copies finds, for every growth of the
      arrays and every order of the mappings, and leaves its caller's path as it was. */
  method RecurseTree(t: Yaml, curPath: Slice<string>) returns (ret: seq<YamlKey>)
    requires curPath.Valid()
    modifies curPath.arr
    ensures multiset(ret) == Leaves(t, old(curPath.Contents()))
    ensures FindsAll(t, old(curPath.Contents()), multiset(ret))
    ensures curPath.Contents() == old(curPath.Contents())
    decreases t, 1
  {
    hide FindsAll;
    LeavesFindAll(t, curPath.Contents());
    ret := [];
    match t
    case Leaf(v) =>
      ret := [YamlKey(TreePath(curPath.arr[..curPath.len]), v)];
    case Mapping(es) =>
      ret := RecurseMapping(t, es, curPath);
    case Listing(ys) =>
      ret := RecurseListing(t, ys, curPath);
    case OtherScalar =>
  }

  method RecurseMapping(t: Yaml, es: seq<Entry>, curPath: Slice<string>) returns (ret: seq<YamlKey>)
    requires curPath.Valid() && t == Mapping(es)
    modifies curPath.arr
    ensures multiset(ret) == LeavesOfEntries(es, old(curPath.Contents()))
    ensures curPath.Contents() == old(curPath.Contents())
    decreases t, 0
  {
    hide KeyString, Leaves, LeavesOfEntries;
    ret := [];
    ghost var path := curPath.Contents();
    var left := es;
    NoEntries(path);
    while left != []
      invariant curPath.Contents() == path
      invariant forall e | e in left :: e in es
      invariant multiset(ret) + LeavesOfEntries(left, path) == LeavesOfEntries(es, path)
      decreases |left|
    {
      var j :| 0 <= j < |left|;
      var e := left[j];
      TakeEntry(left, j, path);
      assert e in left && e in es && e.value < t;
      left := left[..j] + left[j+1..];
      var longer := Append(curPath, KeyString(e.key));
      var found := RecurseTree(e.value, longer);
      ret := ret + found;
    }
  }

  lemma NoEntries(path: seq<string>)
    ensures LeavesOfEntries([], path) == multiset{}
  {
  }

  lemma {:induction false} LeavesOfItemsConcat(ys: seq<Yaml>, y: Yaml, i: nat, path: seq<string>)
    ensures LeavesOfItems(ys + [y], i, path) == LeavesOfItems(ys, i, path) + Leaves(y, path + [Decimal(i + |ys|)])
    decreases |ys|
  {
    hide Leaves, Decimal;
    if ys == [] {
      assert ys + [y] == [y];
    } else {
      assert (ys + [y])[0] == ys[0] && (ys + [y])[1..] == ys[1..] + [y];
      LeavesOfItemsConcat(ys[1..], y, i + 1, path);
    }
  }

  method RecurseListing(t: Yaml, ys: seq<Yaml>, curPath: Slice<string>) returns (ret: seq<YamlKey>)
    requires curPath.Valid() && t == Listing(ys)
    modifies curPath.arr
    ensures multiset(ret) == LeavesOfItems(ys, 0, old(curPath.Contents()))
    ensures curPath.Contents() == old(curPath.Contents())
    decreases t, 0
  {
    hide Decimal, Leaves;
    ret := [];
    ghost var path := curPath.Contents();
    for i := 0 to |ys|
      invariant curPath.Contents() == path
      invariant multiset(ret) == LeavesOfItems(ys[..i], 0, path)
    {
      LeavesOfItemsConcat(ys[..i], ys[i], 0, path);
      assert ys[..i+1] == ys[..i] + [ys[i]];
      assert ys[i] < t;
      var longer := Append(curPath, Decimal(i));
      var found := RecurseTree(ys[i], longer);
      ret := ret + found;
    }
    assert ys[..|ys|] == ys;
  }
}
