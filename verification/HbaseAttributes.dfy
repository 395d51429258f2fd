/** Attributes by path: what is set at one path is read back there and nowhere else; and over whole
    runs the two flat tables are a tree of named nodes with attributes. */
module HbaseAttributes {
  import opened Options
  import opened Paths
  import opened HbaseTable
  import opened HbaseForest
  import opened HbaseNamespace
  import opened HbaseRefinement
  import opened HbaseShadows
  import opened HbaseTheorems

  // ------------------------------------------------------------------ cells of a sorted table

  function Cell(columns: Columns, column: string): Option<string> {
    if column in columns then Some(columns[column]) else None
  }

  lemma {:induction false} CellIsColumn(t: seq<Row>, key: string, column: string)
    requires Sorted(t)
    ensures CellAt(t, key, column) == Cell(ColumnsAt(t, key), column)
  {
    if t != [] {
      CellIsColumn(t[1..], key, column);
      if t[0].key == key {
        forall r | r in t[1..] ensures r.key != key {
          LessIsStrict(t[0].key, r.key);
        }
        ColumnsAtNone(t[1..], key);
      }
    }
  }

  lemma MutatedCells(t: seq<Row>, key: string, column: string, value: string, k: string, c: string)
    requires Sorted(t)
    ensures Sorted(Mutated(t, key, column, value))
    ensures CellAt(Mutated(t, key, column, value), k, c) ==
            if k == key && c == column then Some(value) else CellAt(t, k, c)
  {
    hide Put, ColumnsAt, CellAt, Sorted;
    var row := Row(key, ColumnsAt(t, key)[column := value]);
    PutKeeps(t, row);
    CellIsColumn(t, k, c);
    CellIsColumn(Put(t, row), k, c);
    if k == key {
      PutPut(t, key, row.columns, row.columns);
    } else {
      PutElsewhere(t, row, k);
    }
  }

  lemma SetCells(t: seq<Row>, rowKey: string, id: string, key: string, value: string, k: string, key2: string)
    requires Sorted(t)
    ensures Sorted(WithAttribute(t, rowKey, id, key, value))
    ensures CellAt(WithAttribute(t, rowKey, id, key, value), k, "metakey:" + key2) ==
            if k == rowKey && key2 == key then Some(value) else CellAt(t, k, "metakey:" + key2)
  {
    hide Mutated, CellAt, Sorted;
    var c, c2 := "metakey:" + key, "metakey:" + key2;
    assert c[8..] == key && c2[8..] == key2;
    assert c2[0] != "entry:node_id"[0];
    MutatedCells(t, rowKey, c, value, k, c2);
    MutatedCells(Mutated(t, rowKey, c, value), rowKey, "entry:node_id", id, k, c2);
  }

  lemma RemovedCells(t: seq<Row>, rowKey: string, key: string, k: string, key2: string)
    requires Sorted(t)
    ensures Sorted(WithoutAttribute(t, rowKey, key))
    ensures CellAt(WithoutAttribute(t, rowKey, key), k, "metakey:" + key2) ==
            if k == rowKey && key2 == key then None else CellAt(t, k, "metakey:" + key2)
  {
    hide Put, ColumnsAt, CellAt, Sorted;
    var c, c2 := "metakey:" + key, "metakey:" + key2;
    assert c[8..] == key && c2[8..] == key2;
    CellIsColumn(t, k, c2);
    if c in ColumnsAt(t, rowKey) {
      var row := Row(rowKey, ColumnsAt(t, rowKey) - {c});
      PutKeeps(t, row);
      CellIsColumn(Put(t, row), k, c2);
      if k == rowKey {
        PutPut(t, k, row.columns, row.columns);
      } else {
        PutElsewhere(t, row, k);
      }
    }
  }

  // ------------------------------------------------------------------ row keys of paths

  /** The key of the metadata row of a path that exists. */
  function KeyOf(f: Forest, names: seq<string>): string
    requires Exists(f, names)
  {
    NodeKey(Last(names), Resolve(f, 0, names).value)
  }

  lemma KeyOfInjective(f: Forest, p: seq<string>, q: seq<string>)
    requires ForestInv(f) && Exists(f, p) && Exists(f, q) && KeyOf(f, p) == KeyOf(f, q)
    ensures p == q
  {
    var a, b := Resolve(f, 0, p).value, Resolve(f, 0, q).value;
    KeySplit(Last(p), a, Last(q), b);
    ResolveIff(f, p, a);
    ResolveIff(f, q, b);
  }

  // ------------------------------------------------------------------ where the calls land

  /** The URL exists, and the id the attribute calls look up for it is that of its node. */
  ghost predicate Aimed(f: Forest, url: Url) {
    Exists(f, Names(url)) && Target(TableOf(f), url) == Some(Dec(Resolve(f, 0, Names(url)).value))
  }

  lemma VisibleAimed(f: Forest, url: Url)
    requires ForestInv(f) && |f| <= INT_MAX && UrlOk(url)
    requires Exists(f, Names(url)) && Visible(f, 0, Names(url))
    ensures Aimed(f, url)
  {
    hide TableOf, Target, Names, Visible, ForestInv, Dec;
    TargetIsNode(f, url);
  }

  /** The id looked up for `url` makes the row that belongs to the path `p`. */
  ghost predicate Lands(f: Forest, url: Url, p: seq<string>) {
    && Exists(f, p) && GetLast(url) == Last(p)
    && Target(TableOf(f), url) == Some(Dec(Resolve(f, 0, p).value))
  }

  lemma LandsIff(f: Forest, url: Url, p: seq<string>)
    requires Exists(f, p) && Target(TableOf(f), url).Some?
    ensures Lands(f, url, p) <==> RowKey(url, Target(TableOf(f), url).value) == KeyOf(f, p)
  {
    hide TableOf, GetLast, Last, Dec, NodeId, ParentFrom, Resolve;
    var id, n := Target(TableOf(f), url).value, Resolve(f, 0, p).value;
    LookupFinds(f, GetLast(url), ParentIdOfEntry(TableOf(f), url).value);
    EndsInDigit(Last(p), n);
    if IsId(f, id) {
      var m :| 0 < m <= |f| && id == Dec(m);
      if RowKey(url, id) == KeyOf(f, p) {
        KeySplit(GetLast(url), m, Last(p), n);
      }
    } else {
      assert RowKey(url, id)[|RowKey(url, id)| - 1] == '-';
    }
  }

  lemma EndsInDigit(name: string, id: nat)
    ensures NodeKey(name, id) != "" && IsDigit(NodeKey(name, id)[|NodeKey(name, id)| - 1])
  {
    assert NodeKey(name, id)[|NodeKey(name, id)| - 1] == Dec(id)[|Dec(id)| - 1];
  }

  lemma OwnLanding(f: Forest, url: Url, p: seq<string>)
    requires ForestInv(f) && UrlOk(url) && Aimed(f, url)
    ensures Lands(f, url, p) <==> p == Names(url)
  {
    hide TableOf, Names, GetLast, Last, Dec, Resolve, ForestInv, Target;
    NamesOfUrl(url);
    if Lands(f, url, p) {
      var a, b := Resolve(f, 0, p).value, Resolve(f, 0, Names(url)).value;
      DecInjective(a, b);
      ResolveIff(f, p, a);
      ResolveIff(f, Names(url), b);
    }
  }

  lemma ReadsItsRow(f: Forest, metadata: seq<Row>, url: Url, key: string)
    requires ForestInv(f) && UrlOk(url) && Aimed(f, url)
    ensures Target(TableOf(f), url).Some?
    ensures RowKey(url, Target(TableOf(f), url).value) == KeyOf(f, Names(url))
    ensures AttributeAt(TableOf(f), metadata, url, key) == CellAt(metadata, KeyOf(f, Names(url)), "metakey:" + key)
  {
    hide TableOf, Target, Names, GetLast, ForestInv;
    NamesOfUrl(url);
  }

  /** What `set_attribute` makes of the metadata, which is nothing if it throws. */
  function MetadataSet(nodes: seq<Row>, metadata: seq<Row>, url: Url, key: string, value: string): seq<Row> {
    var id := Target(nodes, url);
    if id.None? then metadata else WithAttribute(metadata, RowKey(url, id.value), id.value, key, value)
  }

  function MetadataRemoved(nodes: seq<Row>, metadata: seq<Row>, url: Url, key: string): seq<Row> {
    var id := Target(nodes, url);
    if id.None? then metadata else WithoutAttribute(metadata, RowKey(url, id.value), key)
  }

  /** A set at any URL whatever changes one attribute of the path its id and name belong to, if there
      is one, and no attribute of any other path. */
  lemma SetCellOf(f: Forest, metadata: seq<Row>, u: Url, key: string, value: string, p: seq<string>, other: string)
    requires Sorted(metadata) && Exists(f, p)
    ensures Sorted(MetadataSet(TableOf(f), metadata, u, key, value))
    ensures CellAt(MetadataSet(TableOf(f), metadata, u, key, value), KeyOf(f, p), "metakey:" + other) ==
            if Lands(f, u, p) && other == key then Some(value) else CellAt(metadata, KeyOf(f, p), "metakey:" + other)
  {
    hide TableOf, Target, Names, RowKey, KeyOf, CellAt, WithAttribute, Sorted;
    var id := Target(TableOf(f), u);
    if id.Some? {
      LandsIff(f, u, p);
      SetCells(metadata, RowKey(u, id.value), id.value, key, value, KeyOf(f, p), other);
    }
  }

  lemma RemovedCellOf(f: Forest, metadata: seq<Row>, u: Url, key: string, p: seq<string>, other: string)
    requires Sorted(metadata) && Exists(f, p)
    ensures Sorted(MetadataRemoved(TableOf(f), metadata, u, key))
    ensures CellAt(MetadataRemoved(TableOf(f), metadata, u, key), KeyOf(f, p), "metakey:" + other) ==
            if Lands(f, u, p) && other == key then None else CellAt(metadata, KeyOf(f, p), "metakey:" + other)
  {
    hide TableOf, Target, Names, RowKey, KeyOf, CellAt, WithoutAttribute, Sorted;
    var id := Target(TableOf(f), u);
    if id.Some? {
      LandsIff(f, u, p);
      RemovedCells(metadata, RowKey(u, id.value), key, KeyOf(f, p), other);
    }
  }

  /** An attribute set at one URL is read back there, and no other attribute of any URL changes. */
  lemma SetIsReadBack(f: Forest, metadata: seq<Row>, u: Url, key: string, value: string, w: Url, other: string)
    requires ForestInv(f) && Sorted(metadata) && UrlOk(u) && UrlOk(w) && Aimed(f, u) && Aimed(f, w)
    ensures AttributeAt(TableOf(f), MetadataSet(TableOf(f), metadata, u, key, value), w, other) ==
            if Names(w) == Names(u) && other == key then Some(value)
            else AttributeAt(TableOf(f), metadata, w, other)
  {
    hide TableOf, Names, KeyOf, CellAt, MetadataSet, AttributeAt, ForestInv, Aimed, Lands;
    AimedExists(f, w);
    ReadsItsRow(f, metadata, w, other);
    ReadsItsRow(f, MetadataSet(TableOf(f), metadata, u, key, value), w, other);
    SetCellOf(f, metadata, u, key, value, Names(w), other);
    OwnLanding(f, u, Names(w));
  }

  lemma AimedExists(f: Forest, url: Url)
    requires Aimed(f, url)
    ensures Exists(f, Names(url))
  {}

  // ------------------------------------------------------------------ the tables as a tree

  datatype Info = Info(dir: bool, attributes: Columns)
  type Tree = map<seq<string>, Info>

  datatype Op =
    | Construct(url: Url, create: bool, exclusive: bool, dir: bool)
    | SetAttribute(url: Url, key: string, value: string)
    | RemoveAttribute(url: Url, key: string)

  datatype Tables = Tables(nodes: seq<Row>, metadata: seq<Row>)

  /** What an operation makes of the tables; the attribute calls are those of an advert whose
      construction succeeded, so that their URL exists. */
  function Perform(t: Tables, op: Op): Tables {
    match op
    case Construct(url, create, exclusive, dir) => t.(nodes := Constructed(t.nodes, url, create, exclusive, dir).0)
    case SetAttribute(url, key, value) => t.(metadata := MetadataSet(t.nodes, t.metadata, url, key, value))
    case RemoveAttribute(url, key) => t.(metadata := MetadataRemoved(t.nodes, t.metadata, url, key))
  }

  /** What it makes of the tree. */
  function OnTree(tree: Tree, op: Op): Tree {
    var p := Names(op.url);
    match op
    case Construct(url, create, exclusive, dir) =>
      if !MayCreate(url, create, exclusive, dir) || p == [] || p in tree then tree
      else map q | q in tree.Keys + Prefixes(p) :: if q in tree then tree[q] else Info(q != p || dir, map[])
    case SetAttribute(_, key, value) =>
      if p in tree then tree[p := tree[p].(attributes := tree[p].attributes[key := value])] else tree
    case RemoveAttribute(_, key) =>
      if p in tree then tree[p := tree[p].(attributes := tree[p].attributes - {key})] else tree
  }

  /** The non-empty prefixes. */
  function Prefixes(p: seq<string>): set<seq<string>> {
    set i | 0 < i <= |p| :: p[..i]
  }

  /** The table is a namespace in which no component of the path that exists is shadowed. */
  ghost predicate Clear(nodes: seq<Row>, names: seq<string>) {
    exists f :: ForestInv(f) && nodes == TableOf(f) && Visible(f, 0, names)
  }

  lemma ClearIff(f: Forest, names: seq<string>)
    requires ForestInv(f)
    ensures Clear(TableOf(f), names) <==> Visible(f, 0, names)
  {
    hide TableOf, ForestInv, Visible;
    if g :| ForestInv(g) && TableOf(f) == TableOf(g) && Visible(g, 0, names) {
      TableInjective(f, g);
    }
  }

  /** The calls at `url` find the node they are meant for. */
  ghost predicate OnTarget(nodes: seq<Row>, url: Url) {
    exists f :: ForestInv(f) && nodes == TableOf(f) && Aimed(f, url)
  }

  lemma OnTargetIff(f: Forest, url: Url)
    requires ForestInv(f)
    ensures OnTarget(TableOf(f), url) <==> Aimed(f, url)
  {
    hide TableOf, ForestInv, Aimed;
    if g :| ForestInv(g) && TableOf(f) == TableOf(g) && Aimed(g, url) {
      TableInjective(f, g);
    }
  }

  predicate OpCreates(op: Op) {
    op.Construct? && MayCreate(op.url, op.create, op.exclusive, op.dir)
  }

  /** Creating asks for a name and for a clear path; an attribute call, that it finds its node. */
  ghost predicate Possible(t: Tables, op: Op) {
    && UrlOk(op.url)
    && if op.Construct? then OpCreates(op) ==> Names(op.url) != [] && Clear(t.nodes, Names(op.url))
       else OnTarget(t.nodes, op.url)
  }

  ghost predicate NodeAgrees(f: Forest, metadata: seq<Row>, tree: Tree, p: seq<string>) {
    && (p in tree <==> Exists(f, p))
    && (Exists(f, p) ==>
          && 0 < Resolve(f, 0, p).value <= |f|
          && tree[p].dir == f[Resolve(f, 0, p).value - 1].dir
          && forall k :: Cell(tree[p].attributes, k) == CellAt(metadata, KeyOf(f, p), "metakey:" + k))
  }

  /** No row belongs to a node that is yet to come. */
  ghost predicate NoneAhead(f: Forest, metadata: seq<Row>) {
    forall name, id, k | id > |f| :: CellAt(metadata, NodeKey(name, id), "metakey:" + k) == None
  }

  ghost predicate Represents(t: Tables, f: Forest, tree: Tree) {
    && t.nodes == TableOf(f) && ForestInv(f) && |f| <= INT_MAX && Sorted(t.metadata) && NoneAhead(f, t.metadata)
    && forall p :: NodeAgrees(f, t.metadata, tree, p)
  }

  // ------------------------------------------------------------------ each operation keeps the tree

  lemma AgreesKept(f: Forest, g: Forest, names: seq<string>, dir: bool, metadata: seq<Row>, tree: Tree, q: seq<string>)
    requires ForestInv(f) && ValidNames(names) && Resolve(f, 0, names).None? && g == Created(f, names, dir)
    requires NodeAgrees(f, metadata, tree, q) && Exists(f, q)
    ensures Exists(g, q) && Resolve(g, 0, q) == Resolve(f, 0, q)
    ensures 0 < Resolve(g, 0, q).value <= |g| && tree[q].dir == g[Resolve(g, 0, q).value - 1].dir
  {
    hide Created, ForestInv;
    CreatedPaths(f, names, dir, q);
    CreatedShape(f, names, dir);
  }

  lemma NewNodeNumber(f: Forest, g: Forest, names: seq<string>, dir: bool, q: seq<string>)
    requires ForestInv(f) && ValidNames(names) && Resolve(f, 0, names).None? && g == Created(f, names, dir)
    requires Resolve(f, 0, q).None? && q <= names
    ensures Resolve(g, 0, q).Some? && |f| < Resolve(g, 0, q).value <= |g|
    ensures |q| == Known(f, 0, names) + Resolve(g, 0, q).value - |f|
  {
    hide Created, ForestInv, Distinct, Resolve;
    CreatedPaths(f, names, dir, q);
    CreatedNodes(f, names, dir);
    var id := Resolve(g, 0, q).value;
    ResolveIff(g, q, id);
    if id <= |f| {
      PathsKept(f, g, id);
      ResolveIff(f, q, id);
    }
  }

  lemma NewNodeAgrees(f: Forest, g: Forest, names: seq<string>, dir: bool, metadata: seq<Row>, q: seq<string>)
    requires ForestInv(f) && ValidNames(names) && Resolve(f, 0, names).None? && g == Created(f, names, dir)
    requires NoneAhead(f, metadata) && !Exists(f, q) && q != [] && q <= names
    ensures Exists(g, q) && |f| < Resolve(g, 0, q).value <= |g|
    ensures g[Resolve(g, 0, q).value - 1].dir == (q != names || dir)
    ensures forall k :: CellAt(metadata, KeyOf(g, q), "metakey:" + k) == None
  {
    hide Created, ForestInv, CellAt, Distinct, Resolve, PathOf;
    NewNodeNumber(f, g, names, dir, q);
    CreatedShape(f, names, dir);
    var id := Resolve(g, 0, q).value;
    assert id < |g| <==> |q| < |names|;
    assert g[id - 1].dir == (id < |g| || dir);
  }

  lemma PrefixesIff(p: seq<string>, q: seq<string>)
    ensures q in Prefixes(p) <==> q != [] && q <= p
  {
    if q != [] && q <= p {
      assert q == p[..|q|];
    }
  }

  lemma CreationAgrees(f: Forest, g: Forest, op: Op, metadata: seq<Row>, tree: Tree, q: seq<string>)
    requires OpCreates(op) && g == Created(f, Names(op.url), op.dir)
    requires ForestInv(f) && ValidNames(Names(op.url)) && Names(op.url) != []
    requires !Exists(f, Names(op.url)) && Names(op.url) !in tree
    requires NodeAgrees(f, metadata, tree, q) && NoneAhead(f, metadata)
    ensures NodeAgrees(g, metadata, OnTree(tree, op), q)
  {
    hide Created, ForestInv, CellAt, Names, NoneAhead, Prefixes;
    var p := Names(op.url);
    PrefixesIff(p, q);
    CreatedPaths(f, p, op.dir, q);
    if Exists(f, q) {
      AgreesKept(f, g, p, op.dir, metadata, tree, q);
    } else if q != [] && q <= p {
      NewNodeAgrees(f, g, p, op.dir, metadata, q);
    }
  }

  /** Construction keeps the table a namespace exactly if it creates nothing or has a name and a clear
      path; then it creates the path, unless that is there. */
  lemma ConstructExact(f: Forest, url: Url, create: bool, exclusive: bool, dir: bool)
    requires ForestInv(f) && UrlOk(url) && |f| + |Names(url)| <= INT_MAX
    ensures var (after, _) := Constructed(TableOf(f), url, create, exclusive, dir);
            var makes := MayCreate(url, create, exclusive, dir);
            var fine := makes ==> Names(url) != [] && Clear(TableOf(f), Names(url));
            && (IsNamespace(after) <==> fine)
            && (fine ==> after == TableOf(if makes && !Exists(f, Names(url)) then Created(f, Names(url), dir) else f))
  {
    hide TableOf, UrlExists, CreateUrl, Names, Created, ForestInv, Visible, Resolve, Clear, IsNamespace, AtRoot;
    ClearIff(f, Names(url));
    UrlExistsExact(f, url);
    CreateUrlExact(f, url, dir);
    ItIsOne(f);
    NothingExists(f);
  }

  /** An exclusive create, which should make what is not there and fail on what is, never makes
      anything and succeeds exactly on what is there and seen. */
  lemma ExclusiveIsInverted(f: Forest, url: Url, dir: bool)
    requires ForestInv(f) && UrlOk(url) && |f| <= INT_MAX && !(dir && AtRoot(url))
    ensures Constructed(TableOf(f), url, true, true, dir) ==
            (TableOf(f), if Exists(f, Names(url)) && Clear(TableOf(f), Names(url)) then Done else AlreadyExists)
  {
    hide TableOf, UrlExists, Names, ForestInv, Visible, Resolve, Clear, AtRoot;
    ClearIff(f, Names(url));
    UrlExistsExact(f, url);
  }

  /** Opening without create makes nothing.  An advert's succeeds exactly on what is there and seen; a
      directory's, which is not checked, always does. */
  lemma OpenExact(f: Forest, url: Url, exclusive: bool, dir: bool)
    requires ForestInv(f) && UrlOk(url) && |f| <= INT_MAX
    ensures Constructed(TableOf(f), url, false, exclusive, dir) ==
            (TableOf(f),
             if dir || (Exists(f, Names(url)) && Clear(TableOf(f), Names(url))) then Done else BadParameter)
  {
    hide TableOf, UrlExists, Names, ForestInv, Visible, Resolve, Clear, AtRoot;
    ClearIff(f, Names(url));
    UrlExistsExact(f, url);
  }

  /** A create that can do its work succeeds exactly if what it made is seen then: an advert that a
      sibling shadows is made, and the constructor throws all the same. */
  lemma CreateSucceedsIff(f: Forest, url: Url, dir: bool)
    requires ForestInv(f) && UrlOk(url) && |f| + |Names(url)| <= INT_MAX
    requires MayCreate(url, true, false, dir) && Names(url) != [] && Clear(TableOf(f), Names(url))
    ensures var (after, outcome) := Constructed(TableOf(f), url, true, false, dir);
            outcome == if dir || Clear(after, Names(url)) then Done else BadParameter
  {
    hide TableOf, UrlExists, CreateUrl, Names, Created, ForestInv, Visible, Resolve, Clear, IsNamespace, AtRoot;
    var names := Names(url);
    ClearIff(f, names);
    UrlExistsExact(f, url);
    CreateUrlExact(f, url, dir);
    if !Exists(f, names) {
      NamesOfUrl(url);
      var g := Created(f, names, dir);
      CreatedShape(f, names, dir);
      CreatedPaths(f, names, dir, names);
      ClearIff(g, names);
      UrlExistsExact(g, url);
    }
  }

  lemma ItIsOne(f: Forest)
    requires ForestInv(f)
    ensures IsNamespace(TableOf(f))
  {}

  lemma NothingExists(f: Forest)
    ensures !Exists(f, [])
  {}

  lemma ConstructStep(t: Tables, f: Forest, tree: Tree, op: Op) returns (g: Forest)
    requires Represents(t, f, tree) && Possible(t, op) && op.Construct? && |f| + |Names(op.url)| <= INT_MAX
    ensures Represents(Perform(t, op), g, OnTree(tree, op)) && |g| <= |f| + |Names(op.url)|
    ensures g == if OpCreates(op) && !Exists(f, Names(op.url)) then Created(f, Names(op.url), op.dir) else f
  {
    hide TableOf, Constructed, Names, NodeAgrees, NoneAhead, Created, ForestInv, Sorted, Clear, MayCreate;
    g := f;
    var p := Names(op.url);
    NamesOfUrl(op.url);
    ConstructExact(f, op.url, op.create, op.exclusive, op.dir);
    InTreeIff(f, t.metadata, tree, p);
    if OpCreates(op) && !Exists(f, p) {
      g := Created(f, p, op.dir);
      CreatedShape(f, p, op.dir);
      NoneAheadGrows(f, g, t.metadata);
      forall q ensures NodeAgrees(g, t.metadata, OnTree(tree, op), q) {
        assert NodeAgrees(f, t.metadata, tree, q);
        CreationAgrees(f, g, op, t.metadata, tree, q);
      }
    }
  }

  lemma InTreeIff(f: Forest, metadata: seq<Row>, tree: Tree, p: seq<string>)
    requires NodeAgrees(f, metadata, tree, p)
    ensures p in tree <==> Exists(f, p)
  {}

  lemma NoneAheadGrows(f: Forest, g: Forest, metadata: seq<Row>)
    requires NoneAhead(f, metadata) && |f| <= |g|
    ensures NoneAhead(g, metadata)
  {}

  /** Both attribute calls change the one cell their URL and key lead to. */
  ghost predicate OneCellChanged(before: seq<Row>, after: seq<Row>, rowKey: string, key: string, cell: Option<string>) {
    forall k, other :: CellAt(after, k, "metakey:" + other) ==
                       if k == rowKey && other == key then cell else CellAt(before, k, "metakey:" + other)
  }

  lemma AttributeKeepsNoneAhead(f: Forest, before: seq<Row>, after: seq<Row>, p: seq<string>, key: string,
                                cell: Option<string>)
    requires Exists(f, p) && Resolve(f, 0, p).value <= |f| && NoneAhead(f, before)
    requires OneCellChanged(before, after, KeyOf(f, p), key, cell)
    ensures NoneAhead(f, after)
  {
    hide CellAt, NodeKey, Resolve, Last;
    forall name, id, k | id > |f| ensures CellAt(after, NodeKey(name, id), "metakey:" + k) == None {
      if NodeKey(name, id) == KeyOf(f, p) {
        SameNodeKey(name, id, Last(p), Resolve(f, 0, p).value);
      }
      assert CellAt(before, NodeKey(name, id), "metakey:" + k) == None;
    }
  }

  lemma SameNodeKey(a: string, m: nat, b: string, n: nat)
    requires NodeKey(a, m) == NodeKey(b, n)
    ensures m == n
  {
    KeySplit(a, m, b, n);
  }

  lemma AttributeAgrees(f: Forest, before: seq<Row>, after: seq<Row>, tree: Tree, p: seq<string>, key: string,
                        cell: Option<string>, attributes: Columns, q: seq<string>)
    requires ForestInv(f) && Exists(f, p) && p in tree && NodeAgrees(f, before, tree, q)
    requires OneCellChanged(before, after, KeyOf(f, p), key, cell)
    requires forall k :: Cell(attributes, k) == if k == key then cell else Cell(tree[p].attributes, k)
    ensures NodeAgrees(f, after, tree[p := tree[p].(attributes := attributes)], q)
  {
    hide CellAt, NodeKey, Resolve, Last, ForestInv, KeyOf;
    if Exists(f, q) && KeyOf(f, q) == KeyOf(f, p) {
      KeyOfInjective(f, q, p);
    }
  }

  lemma AttributeStep(t: Tables, f: Forest, tree: Tree, op: Op)
    requires Represents(t, f, tree) && Possible(t, op) && !op.Construct?
    ensures Represents(Perform(t, op), f, OnTree(tree, op))
  {
    hide TableOf, Target, Names, NodeAgrees, NoneAhead, ForestInv, Sorted, RowKey, KeyOf, CellAt, OnTarget, Aimed;
    hide WithAttribute, WithoutAttribute;
    var p, key, before, after := Names(op.url), op.key, t.metadata, Perform(t, op).metadata;
    OnTargetIff(f, op.url);
    AimedExists(f, op.url);
    InTreeIff(f, before, tree, p);
    ReadsItsRow(f, before, op.url, key);
    var rowKey, id := KeyOf(f, p), Target(t.nodes, op.url).value;
    var cell := if op.SetAttribute? then Some(op.value) else None;
    var old_ := tree[p].attributes;
    var new_ := if op.SetAttribute? then old_[key := op.value] else old_ - {key};
    forall k, other ensures && Sorted(after) && CellAt(after, k, "metakey:" + other) ==
                               if k == rowKey && other == key then cell else CellAt(before, k, "metakey:" + other) {
      if op.SetAttribute? {
        SetCells(before, rowKey, id, key, op.value, k, other);
      } else {
        RemovedCells(before, rowKey, key, k, other);
      }
    }
    assert Sorted(after);
    assert OneCellChanged(before, after, rowKey, key, cell);
    AgreesBound(f, before, tree, p);
    AttributeKeepsNoneAhead(f, before, after, p, key, cell);
    forall q ensures NodeAgrees(f, after, OnTree(tree, op), q) {
      assert NodeAgrees(f, before, tree, q);
      AttributeAgrees(f, before, after, tree, p, key, cell, new_, q);
    }
  }

  lemma AgreesBound(f: Forest, metadata: seq<Row>, tree: Tree, p: seq<string>)
    requires NodeAgrees(f, metadata, tree, p) && p in tree
    ensures Resolve(f, 0, p).Some? && Resolve(f, 0, p).value <= |f|
  {}

  // ------------------------------------------------------------------ whole runs

  function PerformAll(t: Tables, ops: seq<Op>): Tables
    decreases |ops|
  {
    if ops == [] then t else Perform(PerformAll(t, ops[..|ops| - 1]), ops[|ops| - 1])
  }

  function OnTreeAll(tree: Tree, ops: seq<Op>): Tree
    decreases |ops|
  {
    if ops == [] then tree else OnTree(OnTreeAll(tree, ops[..|ops| - 1]), ops[|ops| - 1])
  }

  const NO_TABLES := Tables([], [])

  ghost predicate AllPossible(ops: seq<Op>) {
    forall i | 0 <= i < |ops| :: Possible(PerformAll(NO_TABLES, ops[..i]), ops[i])
  }

  /** A bound on the nodes a run makes. */
  function Size(ops: seq<Op>): nat {
    if ops == [] then 0 else Size(ops[..|ops| - 1]) + |Names(ops[|ops| - 1].url)|
  }

  lemma EmptyRepresents()
    ensures Represents(NO_TABLES, [], map[])
  {
    forall p ensures NodeAgrees([], [], map[], p) {}
  }

  lemma StepRepresents(t: Tables, f: Forest, tree: Tree, op: Op) returns (g: Forest)
    requires Represents(t, f, tree) && Possible(t, op) && |f| + |Names(op.url)| <= INT_MAX
    ensures Represents(Perform(t, op), g, OnTree(tree, op)) && |g| <= |f| + |Names(op.url)|
    ensures g == f || (op.Construct? && g == Created(f, Names(op.url), op.dir))
  {
    hide *;
    if op.Construct? {
      g := ConstructStep(t, f, tree, op);
    } else {
      g := f;
      AttributeStep(t, f, tree, op);
    }
  }

  /** Over every run from empty tables that stays within an int, the two tables are the tree. */
  lemma {:induction false} RunRepresents(ops: seq<Op>) returns (f: Forest)
    requires AllPossible(ops) && Size(ops) <= INT_MAX
    ensures Represents(PerformAll(NO_TABLES, ops), f, OnTreeAll(map[], ops)) && |f| <= Size(ops)
    decreases |ops|
  {
    if ops == [] {
      f := [];
      EmptyRepresents();
    } else {
      hide Represents, Perform, OnTree, Possible;
      var n := |ops| - 1;
      var before, op := ops[..n], ops[n];
      assert forall i | 0 <= i < n :: before[..i] == ops[..i];
      f := RunRepresents(before);
      f := StepRepresents(PerformAll(NO_TABLES, before), f, OnTreeAll(map[], before), op);
    }
  }

  /** So what the calls read after a run is what the tree says, wherever they find their node; and a
      URL is said to exist if it does and nothing hides it, in which case they do. */
  lemma RunReads(ops: seq<Op>, w: Url, key: string)
    requires AllPossible(ops) && Size(ops) <= INT_MAX && UrlOk(w)
    ensures var t, tree := PerformAll(NO_TABLES, ops), OnTreeAll(map[], ops);
            && UrlExists(t.nodes, w) == Some(Names(w) in tree && Clear(t.nodes, Names(w)))
            && (Names(w) in tree && Clear(t.nodes, Names(w)) ==> OnTarget(t.nodes, w))
            && (OnTarget(t.nodes, w) ==>
                  Names(w) in tree &&
                  AttributeAt(t.nodes, t.metadata, w, key) == Cell(tree[Names(w)].attributes, key))
  {
    hide TableOf, UrlExists, AttributeAt, PerformAll, OnTreeAll, Names, KeyOf, Size, AllPossible, CellAt, Clear;
    hide Visible, ForestInv, OnTarget, Aimed;
    var f := RunRepresents(ops);
    var t, tree := PerformAll(NO_TABLES, ops), OnTreeAll(map[], ops);
    UrlExistsExact(f, w);
    ClearIff(f, Names(w));
    OnTargetIff(f, w);
    assert NodeAgrees(f, t.metadata, tree, Names(w));
    if Exists(f, Names(w)) && Visible(f, 0, Names(w)) {
      VisibleAimed(f, w);
    }
    if Aimed(f, w) {
      AimedExists(f, w);
      ReadsItsRow(f, t.metadata, w, key);
    }
  }

  /** And after a run an advert is opened exactly if the tree has its path and nothing hides it. */
  lemma RunOpens(ops: seq<Op>, w: Url)
    requires AllPossible(ops) && Size(ops) <= INT_MAX && UrlOk(w)
    ensures var t, tree := PerformAll(NO_TABLES, ops), OnTreeAll(map[], ops);
            && Constructed(t.nodes, w, false, false, false) ==
               (t.nodes, if Names(w) in tree && Clear(t.nodes, Names(w)) then Done else BadParameter)
            && Constructed(t.nodes, w, false, false, true) == (t.nodes, Done)
  {
    hide TableOf, Constructed, PerformAll, OnTreeAll, Names, Size, AllPossible, Clear, ForestInv, NodeAgrees;
    var f := RunRepresents(ops);
    var t, tree := PerformAll(NO_TABLES, ops), OnTreeAll(map[], ops);
    OpenExact(f, w, false, false);
    OpenExact(f, w, false, true);
    InTreeIff(f, t.metadata, tree, Names(w));
  }

  // ------------------------------------------------------------------ runs with plain names

  /** Only plain names, creations with a name, attribute calls where there is an advert. */
  ghost predicate PlainOp(tree: Tree, op: Op) {
    && UrlOk(op.url) && AllPlain(Names(op.url))
    && if op.Construct? then OpCreates(op) ==> Names(op.url) != [] else Names(op.url) in tree
  }

  ghost predicate AllPlainOps(ops: seq<Op>) {
    forall i | 0 <= i < |ops| :: PlainOp(OnTreeAll(map[], ops[..i]), ops[i])
  }

  lemma PlainClear(t: Tables, f: Forest, tree: Tree, names: seq<string>)
    requires Represents(t, f, tree) && PlainForest(f) && AllPlain(names)
    ensures Clear(t.nodes, names)
  {
    hide TableOf, NoneAhead, NodeAgrees, PlainForest, AllPlain, ForestInv, Clear, Visible, Sorted;
    PlainVisible(f, 0, names);
    ClearIff(f, names);
  }

  lemma ClearOnTarget(t: Tables, f: Forest, tree: Tree, url: Url)
    requires Represents(t, f, tree) && UrlOk(url) && Names(url) in tree && Clear(t.nodes, Names(url))
    ensures OnTarget(t.nodes, url)
  {
    hide TableOf, NoneAhead, ForestInv, Clear, Visible, Sorted, Aimed, Names, CellAt, KeyOf;
    InTreeIff(f, t.metadata, tree, Names(url));
    ClearIff(f, Names(url));
    VisibleAimed(f, url);
    OnTargetIff(f, url);
  }

  lemma PlainStep(t: Tables, f: Forest, tree: Tree, op: Op) returns (g: Forest)
    requires Represents(t, f, tree) && PlainForest(f) && PlainOp(tree, op) && |f| + |Names(op.url)| <= INT_MAX
    ensures Possible(t, op)
    ensures Represents(Perform(t, op), g, OnTree(tree, op)) && PlainForest(g) && |g| <= |f| + |Names(op.url)|
  {
    hide Represents, Perform, OnTree, Clear, OnTarget, PlainForest, AllPlain, Names;
    PlainClear(t, f, tree, Names(op.url));
    if !op.Construct? {
      ClearOnTarget(t, f, tree, op.url);
    }
    g := StepRepresents(t, f, tree, op);
    if g != f {
      CreatedPlain(f, Names(op.url), op.dir);
    }
  }

  /** With plain names every path is clear at every step, so that such a run is always possible. */
  lemma {:induction false} PlainRun(ops: seq<Op>) returns (f: Forest)
    requires AllPlainOps(ops) && Size(ops) <= INT_MAX
    ensures AllPossible(ops) && PlainForest(f) && |f| <= Size(ops)
    ensures Represents(PerformAll(NO_TABLES, ops), f, OnTreeAll(map[], ops))
    decreases |ops|
  {
    hide Represents, Perform, OnTree, Possible, PlainOp, PlainForest, Names;
    if ops == [] {
      f := [];
      EmptyRepresents();
      NoNamesPlain();
    } else {
      var n := |ops| - 1;
      var before, op := ops[..n], ops[n];
      assert forall i | 0 <= i < n :: before[..i] == ops[..i];
      f := PlainRun(before);
      f := PlainStep(PerformAll(NO_TABLES, before), f, OnTreeAll(map[], before), op);
    }
  }

  lemma NoNamesPlain()
    ensures PlainForest([])
  {}

  /** After it the tables answer every question about plain names as the tree does. */
  lemma PlainReads(ops: seq<Op>, w: Url, key: string)
    requires AllPlainOps(ops) && Size(ops) <= INT_MAX && UrlOk(w) && AllPlain(Names(w))
    ensures var t, tree := PerformAll(NO_TABLES, ops), OnTreeAll(map[], ops);
            && UrlExists(t.nodes, w) == Some(Names(w) in tree)
            && (Names(w) in tree ==>
                  AttributeAt(t.nodes, t.metadata, w, key) == Cell(tree[Names(w)].attributes, key))
  {
    hide *;
    var f := PlainRun(ops);
    PlainClear(PerformAll(NO_TABLES, ops), f, OnTreeAll(map[], ops), Names(w));
    RunReads(ops, w, key);
  }

  ghost predicate Creates(op: Op, p: seq<string>) {
    OpCreates(op) && p != [] && p <= Names(op.url)
  }

  lemma CreatesPrefix(op: Op, p: seq<string>, q: seq<string>)
    requires Creates(op, p) && q != [] && q <= p
    ensures Creates(op, q)
  {}

  lemma OneCreates(tree: Tree, op: Op, p: seq<string>)
    requires Names(op.url) in tree && p != [] && p <= Names(op.url) ==> p in tree
    ensures p in OnTree(tree, op) <==> p in tree || Creates(op, p)
  {
    PrefixesIff(Names(op.url), p);
  }

  /** And what exists is every non-empty prefix of a path some constructor was asked to create. */
  lemma {:induction false} ExistsIffCreated(ops: seq<Op>, p: seq<string>)
    ensures p in OnTreeAll(map[], ops) <==> exists i :: 0 <= i < |ops| && Creates(ops[i], p)
    decreases |ops|
  {
    if ops != [] {
      hide Names, Creates, OnTree;
      var n := |ops| - 1;
      var before, op := OnTreeAll(map[], ops[..n]), ops[n];
      ExistsIffCreated(ops[..n], p);
      if Names(op.url) in before && p != [] && p <= Names(op.url) {
        ExistsIffCreated(ops[..n], Names(op.url));
        var i :| 0 <= i < n && Creates(ops[..n][i], Names(op.url));
        CreatesPrefix(ops[..n][i], Names(op.url), p);
      }
      OneCreates(before, op, p);
      if i :| 0 <= i < |ops| && Creates(ops[i], p) {
        assert i < n ==> Creates(ops[..n][i], p);
      }
      if i :| 0 <= i < n && Creates(ops[..n][i], p) {
        assert Creates(ops[i], p);
      }
    }
  }
}
