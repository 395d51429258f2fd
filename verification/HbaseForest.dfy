/** The namespace the rows of the node table stand for: numbered nodes with parents, and the tree
    of paths they make. */
module HbaseForest {
  import opened Options
  import opened Paths

  /** Node number i + 1 is element i of the forest; 0 is the root, which has no node. */
  datatype Node = Node(name: string, parent: nat, dir: bool)
  type Forest = seq<Node>

  ghost predicate Distinct(f: Forest) {
    forall i, j | 0 <= i < j < |f| :: f[i].name != f[j].name || f[i].parent != f[j].parent
  }

  ghost predicate ForestInv(f: Forest) {
    (forall i | 0 <= i < |f| :: ValidName(f[i].name) && f[i].parent <= i) && Distinct(f)
  }

  /** The node with this name under `parent`. */
  function Child(f: Forest, parent: nat, name: string): (id: Option<nat>)
    ensures id.Some? ==> 0 < id.value <= |f|
    ensures id.Some? ==> f[id.value - 1].parent == parent && f[id.value - 1].name == name
  {
    if f == [] then None
    else if f[|f| - 1].parent == parent && f[|f| - 1].name == name then Some(|f|)
    else Child(f[..|f| - 1], parent, name)
  }

  /** The node that `names` leads to from `from`. */
  function Resolve(f: Forest, from: nat, names: seq<string>): Option<nat>
    decreases |names|
  {
    if names == [] then Some(from)
    else
      var child := Child(f, from, names[0]);
      if child.None? then None else Resolve(f, child.value, names[1..])
  }

  predicate Exists(f: Forest, names: seq<string>) {
    names != [] && Resolve(f, 0, names).Some?
  }

  /** The names from the root down to a node. */
  function PathOf(f: Forest, id: nat): seq<string>
    requires id <= |f| && ForestInv(f)
  {
    if id == 0 then [] else PathOf(f, f[id - 1].parent) + [f[id - 1].name]
  }

  // ------------------------------------------------------------------ children

  /** No two children of `parent` have the same name. */
  ghost predicate DistinctUnder(f: Forest, parent: nat) {
    forall i, j | 0 <= i < j < |f| && f[i].parent == parent && f[j].parent == parent :: f[i].name != f[j].name
  }

  lemma {:induction false} ChildFindsUnder(f: Forest, i: nat)
    requires i < |f| && DistinctUnder(f, f[i].parent)
    ensures Child(f, f[i].parent, f[i].name) == Some(i + 1)
  {
    if i < |f| - 1 {
      ChildFindsUnder(f[..|f| - 1], i);
    }
  }

  lemma ChildFinds(f: Forest, i: nat)
    requires ForestInv(f) && i < |f|
    ensures Child(f, f[i].parent, f[i].name) == Some(i + 1)
  {
    ChildFindsUnder(f, i);
  }

  lemma {:induction false} ChildNone(f: Forest, parent: nat, name: string)
    requires Child(f, parent, name).None?
    ensures forall i | 0 <= i < |f| :: f[i].parent != parent || f[i].name != name
  {
    if f != [] {
      ChildNone(f[..|f| - 1], parent, name);
    }
  }

  lemma ChildGrows(f: Forest, node: Node, parent: nat, name: string)
    ensures Child(f + [node], parent, name) ==
            if node.parent == parent && node.name == name then Some(|f| + 1) else Child(f, parent, name)
  {
    assert (f + [node])[..|f|] == f;
  }

  // ------------------------------------------------------------------ paths

  lemma {:induction false} PathNames(f: Forest, id: nat)
    requires ForestInv(f) && id <= |f|
    ensures ValidNames(PathOf(f, id)) && (id > 0 <==> PathOf(f, id) != [])
  {
    if id > 0 {
      PathNames(f, f[id - 1].parent);
    }
  }

  /** No two nodes have the same path. */
  lemma {:induction false} PathInjective(f: Forest, a: nat, b: nat)
    requires ForestInv(f) && a <= |f| && b <= |f| && PathOf(f, a) == PathOf(f, b)
    ensures a == b
    decreases a
  {
    PathNames(f, a);
    PathNames(f, b);
    if a > 0 {
      var p, q := PathOf(f, f[a - 1].parent), PathOf(f, f[b - 1].parent);
      assert p + [f[a - 1].name] == q + [f[b - 1].name];
      assert (p + [f[a - 1].name])[..|p|] == p && (q + [f[b - 1].name])[..|q|] == q;
      PathInjective(f, f[a - 1].parent, f[b - 1].parent);
    }
  }

  lemma {:induction false} ResolveSnoc(f: Forest, from: nat, names: seq<string>, name: string)
    ensures Resolve(f, from, names + [name]) ==
            if Resolve(f, from, names).None? then None else Child(f, Resolve(f, from, names).value, name)
    decreases |names|
  {
    var child := Child(f, from, (names + [name])[0]);
    if names == [] {
      assert (names + [name])[1..] == [];
    } else if child.Some? {
      assert (names + [name])[1..] == names[1..] + [name];
      ResolveSnoc(f, child.value, names[1..], name);
    }
  }

  lemma {:induction false} ResolveFollows(f: Forest, from: nat, names: seq<string>)
    requires ForestInv(f) && from <= |f| && Resolve(f, from, names).Some?
    ensures Resolve(f, from, names).value <= |f|
    ensures PathOf(f, Resolve(f, from, names).value) == PathOf(f, from) + names
    decreases |names|
  {
    if names != [] {
      var child := Child(f, from, names[0]).value;
      ResolveFollows(f, child, names[1..]);
      assert PathOf(f, from) + names == PathOf(f, from) + [names[0]] + names[1..];
    }
  }

  lemma {:induction false} PathResolves(f: Forest, id: nat)
    requires ForestInv(f) && id <= |f|
    ensures Resolve(f, 0, PathOf(f, id)) == Some(id)
  {
    if id > 0 {
      PathResolves(f, f[id - 1].parent);
      ResolveSnoc(f, 0, PathOf(f, f[id - 1].parent), f[id - 1].name);
      ChildFinds(f, id - 1);
    }
  }

  /** Walking down from the root and climbing up to it agree: a list of names leads to a node
      exactly if it is that node's path. */
  lemma ResolveIff(f: Forest, names: seq<string>, id: nat)
    requires ForestInv(f)
    ensures Resolve(f, 0, names) == Some(id) <==> id <= |f| && PathOf(f, id) == names
  {
    if Resolve(f, 0, names) == Some(id) {
      ResolveFollows(f, 0, names);
      assert [] + names == names;
    }
    if id <= |f| && PathOf(f, id) == names {
      PathResolves(f, id);
    }
  }

  /** What exists is closed under taking prefixes. */
  lemma {:induction false} PrefixExists(f: Forest, from: nat, names: seq<string>, j: nat)
    requires Resolve(f, from, names).Some? && j <= |names|
    ensures Resolve(f, from, names[..j]).Some?
    decreases |names|
  {
    if 0 < j {
      assert names[..j][0] == names[0] && names[..j][1..] == names[1..][..j - 1];
      PrefixExists(f, Child(f, from, names[0]).value, names[1..], j - 1);
    }
  }

  // ------------------------------------------------------------------ creating a path

  /** `f` with every missing prefix of `names` added under `from`, each as a directory. */
  function Grown(f: Forest, from: nat, names: seq<string>): Forest
    decreases |names|
  {
    if names == [] then f
    else
      var child := Child(f, from, names[0]);
      if child.Some? then Grown(f, child.value, names[1..])
      else Grown(f + [Node(names[0], from, true)], |f| + 1, names[1..])
  }

  /** `f` after creating `names`, which does not exist, with this flag on the last node. */
  function Created(f: Forest, names: seq<string>, dir: bool): Forest {
    var g := Grown(f, 0, names);
    if g == [] then [] else g[|g| - 1 := g[|g| - 1].(dir := dir)]
  }

  /** How many of `names` are there already. */
  function Known(f: Forest, from: nat, names: seq<string>): (m: nat)
    ensures m <= |names|
    decreases |names|
  {
    if names == [] then 0
    else
      var child := Child(f, from, names[0]);
      if child.None? then 0 else 1 + Known(f, child.value, names[1..])
  }

  lemma {:induction false} KnownIsLongest(f: Forest, from: nat, names: seq<string>)
    ensures Resolve(f, from, names[..Known(f, from, names)]).Some?
    ensures Known(f, from, names) < |names| ==> Resolve(f, from, names[..Known(f, from, names) + 1]).None?
    ensures Known(f, from, names) == |names| <==> Resolve(f, from, names).Some?
    decreases |names|
  {
    var m := Known(f, from, names);
    if names != [] {
      var child := Child(f, from, names[0]);
      if child.Some? {
        KnownIsLongest(f, child.value, names[1..]);
        assert names[..m][1..] == names[1..][..m - 1];
        if m < |names| {
          assert names[..m + 1][1..] == names[1..][..m];
        }
      } else {
        assert names[..1][0] == names[0];
      }
    }
  }

  /** `g` has the nodes of `f`, under the same numbers, up to their flags. */
  ghost predicate Extends(f: Forest, g: Forest) {
    |f| <= |g| && forall i | 0 <= i < |f| :: g[i].name == f[i].name && g[i].parent == f[i].parent
  }

  lemma {:induction false} PathsKept(f: Forest, g: Forest, id: nat)
    requires ForestInv(f) && ForestInv(g) && Extends(f, g) && id <= |f|
    ensures PathOf(g, id) == PathOf(f, id)
  {
    if id > 0 {
      PathsKept(f, g, f[id - 1].parent);
    }
  }

  lemma ChildKept(f: Forest, g: Forest, parent: nat, name: string)
    requires ForestInv(g) && Extends(f, g) && Child(f, parent, name).Some?
    ensures Child(g, parent, name) == Child(f, parent, name)
  {
    hide ForestInv, Child;
    ChildFinds(g, Child(f, parent, name).value - 1);
  }

  /** Everything below the newest node is missing. */
  lemma NewIsBare(f: Forest, names: seq<string>)
    requires ForestInv(f)
    ensures Known(f, |f|, names) == 0
  {}

  lemma NodeAdded(f: Forest, node: Node)
    requires ForestInv(f) && ValidName(node.name) && node.parent <= |f| && Child(f, node.parent, node.name).None?
    ensures ForestInv(f + [node]) && Extends(f, f + [node])
  {
    ChildNone(f, node.parent, node.name);
  }

  lemma {:induction false} GrownShape(f: Forest, from: nat, names: seq<string>)
    requires ForestInv(f) && from <= |f| && ValidNames(names)
    ensures var g := Grown(f, from, names);
            ForestInv(g) && |g| == |f| + |names| - Known(f, from, names) && f <= g
    ensures var g := Grown(f, from, names); forall i | |f| <= i < |g| :: g[i].dir
    decreases |names|
  {
    hide Distinct, Child;
    if names != [] {
      var child := Child(f, from, names[0]);
      if child.Some? {
        GrownShape(f, child.value, names[1..]);
      } else {
        var node := Node(names[0], from, true);
        NodeAdded(f, node);
        NewIsBare(f + [node], names[1..]);
        GrownShape(f + [node], |f| + 1, names[1..]);
      }
    }
  }

  lemma {:induction false} GrownResolves(f: Forest, from: nat, names: seq<string>, j: nat)
    requires ForestInv(f) && from <= |f| && ValidNames(names) && Known(f, from, names) < j <= |names|
    ensures Resolve(Grown(f, from, names), from, names[..j]) == Some(|f| + j - Known(f, from, names))
    decreases |names|
  {
    hide ForestInv, Child, Distinct;
    var g, child, rest := Grown(f, from, names), Child(f, from, names[0]), names[1..];
    assert names[..j][0] == names[0] && names[..j][1..] == rest[..j - 1];
    GrownShape(f, from, names);
    if child.Some? {
      GrownResolves(f, child.value, rest, j - 1);
      ChildKept(f, g, from, names[0]);
    } else {
      var node := Node(names[0], from, true);
      NodeAdded(f, node);
      NewIsBare(f + [node], names[1..]);
      GrownShape(f + [node], |f| + 1, rest);
      ChildGrows(f, node, from, names[0]);
      ChildKept(f + [node], g, from, names[0]);
      if j > 1 {
        GrownResolves(f + [node], |f| + 1, rest, j - 1);
      }
    }
  }

  lemma FlagChanged(f: Forest, dir: bool)
    requires ForestInv(f) && f != []
    ensures ForestInv(f[|f| - 1 := f[|f| - 1].(dir := dir)]) && Extends(f, f[|f| - 1 := f[|f| - 1].(dir := dir)])
  {
    var g := f[|f| - 1 := f[|f| - 1].(dir := dir)];
    assert forall i | 0 <= i < |f| :: g[i].name == f[i].name && g[i].parent == f[i].parent;
  }

  lemma CreatedShape(f: Forest, names: seq<string>, dir: bool)
    requires ForestInv(f) && ValidNames(names) && Resolve(f, 0, names).None?
    ensures var g, m := Created(f, names, dir), Known(f, 0, names);
            ForestInv(g) && m < |names| && |g| == |f| + |names| - m && f <= g
    ensures Extends(Grown(f, 0, names), Created(f, names, dir))
    ensures forall i | |f| <= i < |Created(f, names, dir)| ::
              Created(f, names, dir)[i].dir == (i < |Created(f, names, dir)| - 1 || dir)
  {
    hide ForestInv;
    GrownShape(f, 0, names);
    KnownIsLongest(f, 0, names);
    FlagChanged(Grown(f, 0, names), dir);
  }

  /** Creating a path that does not exist adds exactly its missing prefixes, numbered on from the
      nodes there are, the last with the flag asked for and the others as directories. */
  lemma CreatedNodes(f: Forest, names: seq<string>, dir: bool)
    requires ForestInv(f) && ValidNames(names) && Resolve(f, 0, names).None?
    ensures var g, m := Created(f, names, dir), Known(f, 0, names);
            && ForestInv(g) && m < |names| && |g| == |f| + |names| - m && f <= g
            && forall id | |f| < id <= |g| ::
                 PathOf(g, id) == names[..m + id - |f|] && g[id - 1].dir == (id < |g| || dir)
  {
    hide ForestInv;
    var h, g, m := Grown(f, 0, names), Created(f, names, dir), Known(f, 0, names);
    CreatedShape(f, names, dir);
    GrownShape(f, 0, names);
    forall id | |f| < id <= |g| ensures PathOf(g, id) == names[..m + id - |f|] {
      GrownResolves(f, 0, names, m + id - |f|);
      ResolveIff(h, names[..m + id - |f|], id);
      PathsKept(h, g, id);
    }
  }

  /** Afterwards a path exists exactly if it did before or is a prefix of the one created, and what
      existed keeps its number. */
  lemma CreatedPaths(f: Forest, names: seq<string>, dir: bool, p: seq<string>)
    requires ForestInv(f) && ValidNames(names) && Resolve(f, 0, names).None?
    ensures var g := Created(f, names, dir);
            && (Resolve(g, 0, p).Some? <==> Resolve(f, 0, p).Some? || p <= names)
            && (Resolve(f, 0, p).Some? ==> Resolve(g, 0, p) == Resolve(f, 0, p))
  {
    var g, m := Created(f, names, dir), Known(f, 0, names);
    CreatedNodes(f, names, dir);
    assert Extends(f, g);
    if Resolve(f, 0, p).Some? {
      var id := Resolve(f, 0, p).value;
      ResolveIff(f, p, id);
      PathsKept(f, g, id);
      ResolveIff(g, p, id);
    } else if p <= names {
      assert |p| > m by {
        KnownIsLongest(f, 0, names);
        if |p| <= m {
          assert names[..m][..|p|] == p;
          PrefixExists(f, 0, names[..m], |p|);
        }
      }
      var id := |f| + |p| - m;
      assert PathOf(g, id) == names[..|p|] == p;
      ResolveIff(g, p, id);
    } else if Resolve(g, 0, p).Some? {
      var id := Resolve(g, 0, p).value;
      ResolveIff(g, p, id);
      if id <= |f| {
        PathsKept(f, g, id);
        ResolveIff(f, p, id);
      }
    }
  }
}
