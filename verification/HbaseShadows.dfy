/** The namespace functions for names of any characters: exactly when they see what is stored, and
    exactly when creating a URL keeps the table well formed. */
module HbaseShadows {
  import opened Options
  import opened Paths
  import opened HbaseTable
  import opened HbaseForest
  import opened HbaseNamespace
  import opened HbaseRefinement

  /** Of the components of `names` that exist, none is shadowed. */
  ghost predicate Visible(f: Forest, from: nat, names: seq<string>)
    decreases |names|
  {
    names == [] ||
    var child := Child(f, from, names[0]);
    child.None? || (!Shadowed(f, names[0], from, child.value) && Visible(f, child.value, names[1..]))
  }

  lemma UnderOne(f: Forest, parent: nat)
    requires ForestInv(f)
    ensures DistinctUnder(f, parent)
  {}

  lemma LookupInForest(f: Forest, name: string, parent: nat)
    requires ForestInv(f)
    ensures EntryExists(TableOf(f), name, Dec(parent)) <==>
            Child(f, parent, name).Some? && !Shadowed(f, name, parent, Child(f, parent, name).value)
    ensures EntryExists(TableOf(f), name, Dec(parent)) ==>
              NodeId(TableOf(f), name, Dec(parent)) == Dec(Child(f, parent, name).value)
  {
    hide *;
    UnderOne(f, parent);
    LookupExact(f, name, parent);
  }

  // ------------------------------------------------------------------ url_exists

  lemma {:induction false} WalkSees(f: Forest, from: nat, parent: string, names: seq<string>)
    requires ForestInv(f) && |f| <= INT_MAX && from <= |f|
    ensures !(Resolve(f, from, names).Some? && Visible(f, from, names)) ==>
              WalkUrl(TableOf(f), from, parent, names) == Missing
    ensures Resolve(f, from, names).Some? && Visible(f, from, names) ==>
              && Resolve(f, from, Front(names)).Some?
              && WalkUrl(TableOf(f), from, parent, names) ==
                 Reached(if names == [] then parent else Dec(Resolve(f, from, Front(names)).value))
    decreases |names|
  {
    hide TableOf, Dec, NodeId, EntryExists, ParseInt, Child, Shadowed, ForestInv;
    if names != [] {
      IntRoundTrip(from);
      LookupInForest(f, names[0], from);
      var child := Child(f, from, names[0]);
      if child.Some? {
        IntRoundTrip(child.value);
        WalkSees(f, child.value, Dec(from), names[1..]);
        if |names| > 1 {
          assert Front(names)[0] == names[0] && Front(names)[1..] == Front(names[1..]);
        }
      }
    }
  }

  lemma {:induction false} LastVisible(f: Forest, from: nat, names: seq<string>)
    requires names != [] && Resolve(f, from, names).Some? && Visible(f, from, names)
    ensures Resolve(f, from, Front(names)).Some?
    ensures var p := Resolve(f, from, Front(names)).value;
            && Child(f, p, Last(names)).Some?
            && !Shadowed(f, Last(names), p, Child(f, p, Last(names)).value)
    decreases |names|
  {
    hide Shadowed;
    var child := Child(f, from, names[0]).value;
    if |names| > 1 {
      LastVisible(f, child, names[1..]);
      assert Front(names)[0] == names[0] && Front(names)[1..] == Front(names[1..]);
      assert Last(names) == Last(names[1..]);
    }
  }

  /** `url_exists` is exact: it holds for the URLs that exist and have no shadowed component. */
  lemma UrlExistsExact(f: Forest, url: Url)
    requires ForestInv(f) && |f| <= INT_MAX && UrlOk(url)
    ensures UrlExists(TableOf(f), url) == Some(Exists(f, Names(url)) && Visible(f, 0, Names(url)))
  {
    hide TableOf, Dec, EntryExists, Names, GetLast, Last, Front, ForestInv, Shadowed;
    var names := Names(url);
    NamesOfUrl(url);
    WalkSees(f, 0, "", names);
    if names == [] {
      NoRootSiblings(f, GetLast(url));
    } else if Exists(f, names) && Visible(f, 0, names) {
      LastVisible(f, 0, names);
      LookupInForest(f, Last(names), Resolve(f, 0, Front(names)).value);
    }
  }

  lemma {:induction false} ParentSees(f: Forest, from: nat, parent: string, names: seq<string>)
    requires ForestInv(f) && |f| <= INT_MAX && from <= |f| && Resolve(f, from, names).Some? && Visible(f, from, names)
    ensures Resolve(f, from, Front(names)).Some?
    ensures ParentFrom(TableOf(f), from, parent, names) ==
            Some(if names == [] then parent else Dec(Resolve(f, from, Front(names)).value))
    decreases |names|
  {
    hide TableOf, Dec, NodeId, EntryExists, ParseInt, Child, Shadowed, ForestInv;
    if names != [] {
      IntRoundTrip(from);
      LookupInForest(f, names[0], from);
      var child := Child(f, from, names[0]);
      IntRoundTrip(child.value);
      ParentSees(f, child.value, Dec(from), names[1..]);
      if |names| > 1 {
        assert Front(names)[0] == names[0] && Front(names)[1..] == Front(names[1..]);
      }
    }
  }

  /** The id the attribute calls find for a URL that exists and is visible is its node's. */
  lemma TargetIsNode(f: Forest, url: Url)
    requires ForestInv(f) && |f| <= INT_MAX && UrlOk(url)
    requires Exists(f, Names(url)) && Visible(f, 0, Names(url))
    ensures Target(TableOf(f), url) == Some(Dec(Resolve(f, 0, Names(url)).value))
  {
    hide TableOf, Dec, NodeId, Names, GetLast, Last, Front, ForestInv, Shadowed, Child;
    var names := Names(url);
    NamesOfUrl(url);
    ParentSees(f, 0, "", names);
    LastResolves(f, names);
    LastVisible(f, 0, names);
    LookupInForest(f, Last(names), Resolve(f, 0, Front(names)).value);
  }

  /** With plain names all around nothing is shadowed. */
  lemma {:induction false} PlainVisible(f: Forest, from: nat, names: seq<string>)
    requires ForestInv(f) && PlainForest(f) && AllPlain(names)
    ensures Visible(f, from, names)
    decreases |names|
  {
    hide Child, Shadowed, ForestInv, PlainForest;
    if names != [] {
      var child := Child(f, from, names[0]);
      if child.Some? {
        PlainUnshadowed(f, names[0], from);
        PlainVisible(f, child.value, names[1..]);
      }
    }
  }

  // ------------------------------------------------------------------ create_url

  ghost predicate Ordered(f: Forest) {
    forall i | 0 <= i < |f| :: f[i].parent <= i
  }

  /** One node below the other, from the newest node on. */
  function Chain(f: Forest, names: seq<string>): Forest
    decreases |names|
  {
    if names == [] then f else Chain(f + [Node(names[0], |f|, true)], names[1..])
  }

  lemma {:induction false} ChainShape(f: Forest, names: seq<string>)
    ensures f <= Chain(f, names) && |Chain(f, names)| == |f| + |names|
    ensures names != [] ==> Chain(f, names)[|f| + |names| - 1].name == Last(names)
    decreases |names|
  {
    if names != [] {
      ChainShape(f + [Node(names[0], |f|, true)], names[1..]);
      assert (f + [Node(names[0], |f|, true)])[|f|].name == names[0];
    }
  }

  lemma NothingUnderNewest(f: Forest, name: string)
    requires Ordered(f)
    ensures !EntryExists(TableOf(f), name, Dec(|f|))
  {
    hide TableOf, Dec, EntryExists;
    LookupExact(f, name, |f|);
  }

  lemma {:induction false} ChainRows(f: Forest, names: seq<string>, nodeId: string)
    requires Ordered(f) && |f| + |names| <= INT_MAX
    ensures CreateFrom(TableOf(f), |f|, names, nodeId) ==
            Creation(TableOf(Chain(f, names)), if names == [] then nodeId else Dec(|f| + |names|), true)
    decreases |names|
  {
    hide TableOf, Dec, NodeId, EntryExists, ParseInt, AddNode;
    if names != [] {
      var g := f + [Node(names[0], |f|, true)];
      IntRoundTrip(|f|);
      NothingUnderNewest(f, names[0]);
      TableSorted(f);
      AddNodeRefines(f, names[0], |f|);
      IntRoundTrip(|f| + 1);
      ChainRows(g, names[1..], Dec(|g|));
    }
  }

  /** The forest after the loop of `create_url`: from the first component it does not see on,
      everything is new. */
  ghost function Appended(f: Forest, from: nat, names: seq<string>): Forest
    decreases |names|
  {
    if names == [] then f
    else
      var child := Child(f, from, names[0]);
      if child.Some? && !Shadowed(f, names[0], from, child.value) then Appended(f, child.value, names[1..])
      else Chain(f + [Node(names[0], from, true)], names[1..])
  }

  lemma {:induction false} AppendedShape(f: Forest, from: nat, names: seq<string>)
    ensures var g := Appended(f, from, names);
            && f <= g && (g != f ==> |g| > |f| && g[|g| - 1].name == Last(names))
            && (g == f <==> Resolve(f, from, names).Some? && Visible(f, from, names))
    decreases |names|
  {
    hide Child, Shadowed, Chain;
    if names != [] {
      var child, rest := Child(f, from, names[0]), names[1..];
      if child.Some? && !Shadowed(f, names[0], from, child.value) {
        AppendedShape(f, child.value, rest);
        assert rest != [] ==> Last(rest) == Last(names);
      } else {
        LastOfChain(f, from, names);
      }
    }
  }

  lemma {:induction false} AppendedRows(f: Forest, from: nat, names: seq<string>, nodeId: string)
    requires ForestInv(f) && from <= |f| && |f| + |names| <= INT_MAX
    ensures var g := Appended(f, from, names);
            CreateFrom(TableOf(f), from, names, nodeId) == Creation(TableOf(g), if |g| == |f| then nodeId else Dec(|g|), true)
    decreases |names|
  {
    hide TableOf, Dec, NodeId, EntryExists, ParseInt, Child, AddNode, ForestInv, Shadowed, Chain;
    if names != [] {
      var child, rest := Child(f, from, names[0]), names[1..];
      IntRoundTrip(from);
      LookupInForest(f, names[0], from);
      if child.Some? && !Shadowed(f, names[0], from, child.value) {
        IntRoundTrip(child.value);
        AppendedRows(f, child.value, rest, nodeId);
      } else {
        UnseenRows(f, from, names, nodeId);
      }
    }
  }

  /** From a component that is not seen on. */
  lemma UnseenRows(f: Forest, from: nat, names: seq<string>, nodeId: string)
    requires names != [] && ForestInv(f) && from <= |f| && |f| + |names| <= INT_MAX
    requires !EntryExists(TableOf(f), names[0], Dec(from))
    ensures var g := Chain(f + [Node(names[0], from, true)], names[1..]);
            |g| > |f| && CreateFrom(TableOf(f), from, names, nodeId) == Creation(TableOf(g), Dec(|g|), true)
  {
    hide TableOf, Dec, EntryExists, ParseInt, AddNode, ForestInv, Chain;
    var g := f + [Node(names[0], from, true)];
    IntRoundTrip(from);
    TableSorted(f);
    AddNodeRefines(f, names[0], from);
    IntRoundTrip(|f| + 1);
    ForestOrdered(f, Node(names[0], from, true));
    ChainRows(g, names[1..], Dec(|g|));
    ChainShape(g, names[1..]);
  }

  lemma ForestOrdered(f: Forest, node: Node)
    requires ForestInv(f) && node.parent <= |f|
    ensures Ordered(f + [node])
  {}

  lemma LastOfChain(f: Forest, from: nat, names: seq<string>)
    requires names != []
    ensures var h := Chain(f + [Node(names[0], from, true)], names[1..]);
            |h| > |f| && f <= h && h[|h| - 1].name == Last(names) && h[|f|] == Node(names[0], from, true)
  {
    var g := f + [Node(names[0], from, true)];
    ChainShape(g, names[1..]);
    assert g[|f|] == Node(names[0], from, true);
    assert |names| > 1 ==> Last(names[1..]) == Last(names);
  }

  /** Where all is visible the loop makes what it should; otherwise it makes a second node of a name
      under one parent. */
  lemma {:induction false} AppendedIs(f: Forest, from: nat, names: seq<string>)
    requires ForestInv(f) && from <= |f|
    ensures Visible(f, from, names) ==> Appended(f, from, names) == Grown(f, from, names)
    ensures !Visible(f, from, names) ==> !Distinct(Appended(f, from, names))
    decreases |names|
  {
    hide ForestInv, Shadowed, Chain, Distinct;
    if names != [] {
      var child := Child(f, from, names[0]);
      if child.Some? && !Shadowed(f, names[0], from, child.value) {
        AppendedIs(f, child.value, names[1..]);
      } else if child.Some? {
        LastOfChain(f, from, names);
        TwiceThere(Appended(f, from, names), child.value - 1, |f|);
      } else {
        ForestOrdered(f, Node(names[0], from, true));
        ChainGrows(f + [Node(names[0], from, true)], names[1..]);
      }
    }
  }

  lemma TwiceThere(f: Forest, i: nat, j: nat)
    requires i < j < |f| && f[i].name == f[j].name && f[i].parent == f[j].parent
    ensures !Distinct(f)
  {}

  lemma {:induction false} ChainGrows(f: Forest, names: seq<string>)
    requires Ordered(f)
    ensures Grown(f, |f|, names) == Chain(f, names)
    decreases |names|
  {
    if names != [] {
      ChainGrows(f + [Node(names[0], |f|, true)], names[1..]);
    }
  }

  /** A table is that of one forest only. */
  lemma TableInjective(f: Forest, g: Forest)
    requires TableOf(f) == TableOf(g)
    ensures f == g
  {
    hide TableOf, RowAt;
    TableSorted(f);
    TableSorted(g);
    forall i | 0 <= i < |f| ensures f[i] == g[i] {
      var k := RowOfNode(f, i);
      var j := NodeOfRow(g, k);
      SameRow(f, i, g, j);
    }
  }

  lemma SameRow(f: Forest, i: nat, g: Forest, j: nat)
    requires i < |f| && j < |g| && RowAt(f, i) == RowAt(g, j)
    ensures i == j && f[i] == g[j]
  {
    KeySplit(f[i].name, i + 1, g[j].name, j + 1);
    var a, b := NodeColumns(f[i], i + 1), NodeColumns(g[j], j + 1);
    assert a == b && a["entry:parent_id"] == b["entry:parent_id"] && a["entry:is_dir"] == b["entry:is_dir"];
    DecInjective(f[i].parent, g[j].parent);
    assert Flag(true)[0] != Flag(false)[0];
  }

  lemma FlagKeepsDistinct(f: Forest, dir: bool)
    requires f != [] && !Distinct(f)
    ensures !Distinct(f[|f| - 1 := f[|f| - 1].(dir := dir)])
  {
    var g := f[|f| - 1 := f[|f| - 1].(dir := dir)];
    var i, j :| 0 <= i < j < |f| && f[i].name == f[j].name && f[i].parent == f[j].parent;
    TwiceThere(g, i, j);
  }

  /** What the call makes of the rows: nodes for everything it does not see, or a row with an empty
      id if there is nothing left to make. */
  lemma CreateUrlRows(f: Forest, url: Url, dir: bool)
    requires ForestInv(f) && UrlOk(url) && |f| + |Names(url)| <= INT_MAX
    ensures var g := Appended(f, 0, Names(url));
            && CreateUrl(TableOf(f), url, dir).1
            && if g == f then
                 CreateUrl(TableOf(f), url, dir).0 == Mutated(TableOf(f), GetLast(url) + "-", "entry:is_dir", Flag(dir))
               else g != [] && CreateUrl(TableOf(f), url, dir).0 == TableOf(g[|g| - 1 := g[|g| - 1].(dir := dir)])
  {
    hide TableOf, CreateFrom, Names, GetLast, Last, ForestInv, Appended, Mutated, Dec, Visible;
    var names := Names(url);
    var g := Appended(f, 0, names);
    NamesOfUrl(url);
    AppendedRows(f, 0, names, "");
    AppendedShape(f, 0, names);
    if g == f {
      assert GetLast(url) + "-" + "" == GetLast(url) + "-";
    } else {
      NothingAppended(f);
      FlagMutation(g, dir);
      assert NodeKey(g[|g| - 1].name, |g|) == GetLast(url) + "-" + Dec(|g|);
    }
  }

  lemma NothingAppended(f: Forest)
    ensures Appended(f, 0, []) == f
  {}

  ghost predicate IsNamespace(t: seq<Row>) {
    exists g :: ForestInv(g) && t == TableOf(g)
  }

  /** Whatever the names, `create_url` keeps the table a namespace exactly if the path has a name,
      does not exist, and none of its components that do exist is shadowed; then it creates the path. */
  lemma CreateUrlExact(f: Forest, url: Url, dir: bool)
    requires ForestInv(f) && UrlOk(url) && |f| + |Names(url)| <= INT_MAX
    ensures IsNamespace(CreateUrl(TableOf(f), url, dir).0) <==>
            Names(url) != [] && !Exists(f, Names(url)) && Visible(f, 0, Names(url))
    ensures Names(url) != [] && !Exists(f, Names(url)) && Visible(f, 0, Names(url)) ==>
              CreateUrl(TableOf(f), url, dir) == (TableOf(Created(f, Names(url), dir)), true)
  {
    hide TableOf, CreateUrl, Names, ForestInv, Visible, Appended, Created, IsNamespace, Resolve;
    var names := Names(url);
    AppendedShape(f, 0, names);
    NothingAppended(f);
    if names != [] && !Exists(f, names) && Visible(f, 0, names) {
      CreatedExactly(f, url, dir);
    } else {
      NoNamespace(f, url, dir);
    }
  }

  lemma CreatedExactly(f: Forest, url: Url, dir: bool)
    requires ForestInv(f) && UrlOk(url) && |f| + |Names(url)| <= INT_MAX
    requires Appended(f, 0, Names(url)) != f && Visible(f, 0, Names(url)) && Resolve(f, 0, Names(url)).None?
    ensures CreateUrl(TableOf(f), url, dir) == (TableOf(Created(f, Names(url), dir)), true)
    ensures IsNamespace(CreateUrl(TableOf(f), url, dir).0)
  {
    hide TableOf, CreateUrl, Names, ForestInv, Visible, Appended, Mutated, Grown;
    NamesOfUrl(url);
    CreateUrlRows(f, url, dir);
    AppendedIs(f, 0, Names(url));
    CreatedShape(f, Names(url), dir);
  }

  lemma NoNamespace(f: Forest, url: Url, dir: bool)
    requires ForestInv(f) && UrlOk(url) && |f| + |Names(url)| <= INT_MAX
    requires Appended(f, 0, Names(url)) == f || !Visible(f, 0, Names(url))
    ensures !IsNamespace(CreateUrl(TableOf(f), url, dir).0)
  {
    hide TableOf, CreateUrl, Names, ForestInv, Visible, Appended, Mutated, Distinct, IsNamespace;
    var g := Appended(f, 0, Names(url));
    CreateUrlRows(f, url, dir);
    if g == f {
      BareRow(f, url, dir);
    } else {
      AppendedIs(f, 0, Names(url));
      FlagKeepsDistinct(g, dir);
      DuplicateIsNone(g[|g| - 1 := g[|g| - 1].(dir := dir)]);
    }
  }

  lemma BareRow(f: Forest, url: Url, dir: bool)
    ensures !IsNamespace(Mutated(TableOf(f), GetLast(url) + "-", "entry:is_dir", Flag(dir)))
  {
    hide TableOf, GetLast, Put, ColumnsAt;
    TableSorted(f);
    var columns := ColumnsAt(TableOf(f), GetLast(url) + "-")["entry:is_dir" := Flag(dir)];
    forall g ensures Put(TableOf(f), Row(GetLast(url) + "-", columns)) != TableOf(g) {
      BareKeyIsNoNode(g, TableOf(f), GetLast(url), columns);
    }
  }

  lemma DuplicateIsNone(f: Forest)
    requires !Distinct(f)
    ensures !IsNamespace(TableOf(f))
  {
    hide TableOf, Distinct;
    if g :| ForestInv(g) && TableOf(f) == TableOf(g) {
      TableInjective(f, g);
    }
  }
}
