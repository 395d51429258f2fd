/** The rows as a representation of the forest: when the prefix scan finds what it looks for, and
    what creating a URL makes of the rows. */
module HbaseRefinement {
  import opened Options
  import opened Paths
  import opened HbaseTable
  import opened HbaseForest
  import opened HbaseNamespace

  function NodeKey(name: string, id: nat): string {
    name + "-" + Dec(id)
  }

  function NodeColumns(node: Node, id: nat): Columns {
    map["entry:node_id" := Dec(id), "entry:node_name" := node.name,
        "entry:parent_id" := Dec(node.parent), "entry:is_dir" := Flag(node.dir)]
  }

  function NodeRow(node: Node, id: nat): Row {
    Row(NodeKey(node.name, id), NodeColumns(node, id))
  }

  function RowAt(f: Forest, i: nat): Row
    requires i < |f|
  {
    NodeRow(f[i], i + 1)
  }

  /** The table that holds exactly the nodes of `f`. */
  function TableOf(f: Forest): seq<Row> {
    if f == [] then [] else Put(TableOf(f[..|f| - 1]), RowAt(f, |f| - 1))
  }

  ghost predicate IsNodeRow(f: Forest, row: Row) {
    exists i | 0 <= i < |f| :: row == RowAt(f, i)
  }

  lemma RowKeysDiffer(f: Forest, i: nat, j: nat)
    requires i < |f| && j < |f| && RowAt(f, i).key == RowAt(f, j).key
    ensures i == j
  {
    KeySplit(f[i].name, i + 1, f[j].name, j + 1);
  }

  lemma RowsOfFront(f: Forest)
    requires f != []
    ensures forall i | 0 <= i < |f| - 1 :: RowAt(f[..|f| - 1], i) == RowAt(f, i)
  {}

  lemma {:induction false} TableRows(f: Forest)
    ensures Sorted(TableOf(f)) && |TableOf(f)| == |f|
    ensures forall i | 0 <= i < |f| :: RowAt(f, i) in TableOf(f)
    ensures forall r | r in TableOf(f) :: IsNodeRow(f, r)
  {
    hide Put, RowAt;
    if f != [] {
      var g, n := f[..|f| - 1], |f| - 1;
      TableRows(g);
      RowsOfFront(f);
      forall r | r in TableOf(g) ensures r.key != RowAt(f, n).key && IsNodeRow(f, r) {
        var i :| 0 <= i < n && r == RowAt(g, i);
        assert r == RowAt(f, i);
        if r.key == RowAt(f, n).key {
          RowKeysDiffer(f, i, n);
        }
      }
      PutKeeps(TableOf(g), RowAt(f, n));
      PutLength(TableOf(g), RowAt(f, n));
    }
  }

  lemma TableSorted(f: Forest)
    ensures Sorted(TableOf(f)) && |TableOf(f)| == |f|
  {
    TableRows(f);
  }

  lemma NodeOfRow(f: Forest, k: nat) returns (i: nat)
    requires k < |TableOf(f)|
    ensures i < |f| && TableOf(f)[k] == RowAt(f, i)
  {
    hide TableOf, RowAt, Sorted;
    TableRows(f);
    assert IsNodeRow(f, TableOf(f)[k]);
    i :| 0 <= i < |f| && TableOf(f)[k] == RowAt(f, i);
  }

  lemma RowOfNode(f: Forest, i: nat) returns (k: nat)
    requires i < |f|
    ensures k < |TableOf(f)| && TableOf(f)[k] == RowAt(f, i)
  {
    hide TableOf, RowAt, Sorted;
    TableRows(f);
    assert RowAt(f, i) in TableOf(f);
    k :| 0 <= k < |TableOf(f)| && TableOf(f)[k] == RowAt(f, i);
  }

  // ------------------------------------------------------------------ the prefix scan

  lemma {:induction false} ScanStops(rows: seq<Row>, entry: string, parent: string, stale: string, k: nat)
    requires k < |rows| && Matches(rows[k], entry, parent) && "entry:node_id" in rows[k].columns
    requires forall j | 0 <= j < k :: !Matches(rows[j], entry, parent)
    ensures NodeIdFrom(rows, entry, parent, stale) == rows[k].columns["entry:node_id"]
  {
    if k > 0 {
      var row := rows[0];
      var id := if entry <= row.key && "entry:node_id" in row.columns then row.columns["entry:node_id"] else stale;
      ScanStops(rows[1..], entry, parent, id, k - 1);
    }
  }

  ghost function FirstMatch(rows: seq<Row>, entry: string, parent: string): (k: nat)
    requires exists i :: 0 <= i < |rows| && Matches(rows[i], entry, parent)
    ensures k < |rows| && Matches(rows[k], entry, parent)
    ensures forall j | 0 <= j < k :: !Matches(rows[j], entry, parent)
  {
    if Matches(rows[0], entry, parent) then 0
    else
      var i :| 0 <= i < |rows| && Matches(rows[i], entry, parent);
      assert Matches(rows[1..][i - 1], entry, parent);
      1 + FirstMatch(rows[1..], entry, parent)
  }

  /** A sibling whose key starts with the entry's name and comes before the entry's own key. */
  ghost predicate Shadows(f: Forest, i: nat, entry: string, parent: nat, id: nat) {
    && i < |f| && f[i].parent == parent && entry <= NodeKey(f[i].name, i + 1)
    && Less(NodeKey(f[i].name, i + 1), NodeKey(entry, id))
  }

  ghost predicate Shadowed(f: Forest, entry: string, parent: nat, id: nat) {
    exists i :: Shadows(f, i, entry, parent, id)
  }

  lemma RowAtReads(f: Forest, i: nat, name: string, id: nat, parent: nat)
    requires i < |f|
    ensures RowAt(f, i).key == NodeKey(name, id) <==> f[i].name == name && i + 1 == id
    ensures Holds(RowAt(f, i), "entry:parent_id", Dec(parent)) <==> f[i].parent == parent
    ensures "entry:node_id" in RowAt(f, i).columns && RowAt(f, i).columns["entry:node_id"] == Dec(i + 1)
  {
    if RowAt(f, i).key == NodeKey(name, id) {
      KeySplit(f[i].name, i + 1, name, id);
    }
    if Dec(f[i].parent) == Dec(parent) {
      DecInjective(f[i].parent, parent);
    }
  }

  lemma RowWithNode(f: Forest, name: string, id: nat, parent: nat)
    requires RowWith(TableOf(f), NodeKey(name, id), Dec(parent))
    ensures 0 < id <= |f| && f[id - 1].name == name && f[id - 1].parent == parent
  {
    hide TableOf, Dec, RowAt, NodeKey, Holds;
    var t := TableOf(f);
    var k :| 0 <= k < |t| && t[k].key == NodeKey(name, id) && Holds(t[k], "entry:parent_id", Dec(parent));
    var i := NodeOfRow(f, k);
    RowAtReads(f, i, name, id, parent);
  }

  lemma RowWithAt(t: seq<Row>, k: nat, parent: string)
    requires k < |t| && Holds(t[k], "entry:parent_id", parent)
    ensures RowWith(t, t[k].key, parent)
  {}

  lemma NodeRowWith(f: Forest, id: nat)
    requires 0 < id <= |f|
    ensures RowWith(TableOf(f), NodeKey(f[id - 1].name, id), Dec(f[id - 1].parent))
  {
    hide TableOf, Dec, RowAt, NodeKey, Holds, RowWith;
    RowAtReads(f, id - 1, f[id - 1].name, id, f[id - 1].parent);
    var k := RowOfNode(f, id - 1);
    RowWithAt(TableOf(f), k, Dec(f[id - 1].parent));
  }

  lemma RowWithIff(f: Forest, name: string, id: nat, parent: nat)
    ensures RowWith(TableOf(f), NodeKey(name, id), Dec(parent)) <==>
            0 < id <= |f| && f[id - 1].name == name && f[id - 1].parent == parent
  {
    hide *;
    if RowWith(TableOf(f), NodeKey(name, id), Dec(parent)) {
      RowWithNode(f, name, id, parent);
    }
    if 0 < id <= |f| && f[id - 1].name == name && f[id - 1].parent == parent {
      NodeRowWith(f, id);
    }
  }

  lemma RowMatches(f: Forest, i: nat, name: string, parent: nat)
    requires i < |f|
    ensures Matches(RowAt(f, i), name, Dec(parent)) <==>
            name <= NodeKey(f[i].name, i + 1) && f[i].parent == parent
  {
    RowAtReads(f, i, name, i + 1, parent);
  }

  lemma RowsOrdered(f: Forest, a: nat, b: nat, i: nat, j: nat)
    requires a < |TableOf(f)| && b < |TableOf(f)| && i < |f| && j < |f|
    requires TableOf(f)[a] == RowAt(f, i) && TableOf(f)[b] == RowAt(f, j)
    ensures Less(NodeKey(f[i].name, i + 1), NodeKey(f[j].name, j + 1)) <==> a < b
  {
    hide TableOf, Less, NodeKey;
    TableSorted(f);
    LessIsStrict(TableOf(f)[a].key, TableOf(f)[b].key);
  }

  /** The row the scan stops at. */
  ghost predicate StopsAt(f: Forest, name: string, parent: nat, k: nat) {
    && k < |TableOf(f)| && Matches(TableOf(f)[k], name, Dec(parent))
    && forall i | 0 <= i < k :: !Matches(TableOf(f)[i], name, Dec(parent))
  }

  /** The scan finds the id of the node whose row it stops at, and the re-check asks for its name. */
  lemma LookupStops(f: Forest, name: string, parent: nat, k: nat, j: nat)
    requires StopsAt(f, name, parent, k) && j < |f| && TableOf(f)[k] == RowAt(f, j)
    ensures NodeId(TableOf(f), name, Dec(parent)) == Dec(j + 1)
    ensures f[j].parent == parent && name <= NodeKey(f[j].name, j + 1)
    ensures EntryExists(TableOf(f), name, Dec(parent)) <==> f[j].name == name
  {
    hide TableOf, Dec, RowAt, Holds;
    RowAtReads(f, j, name, j + 1, parent);
    RowMatches(f, j, name, parent);
    ScanStops(TableOf(f), name, Dec(parent), "", k);
    RowWithIff(f, name, j + 1, parent);
  }

  /** No other sibling's row comes before the one the scan stops at. */
  lemma StopIsFirst(f: Forest, name: string, parent: nat, k: nat, j: nat, i: nat)
    requires StopsAt(f, name, parent, k) && j < |f| && TableOf(f)[k] == RowAt(f, j) && i < |f|
    requires f[i].parent == parent && name <= NodeKey(f[i].name, i + 1)
    ensures i == j || Less(NodeKey(f[j].name, j + 1), NodeKey(f[i].name, i + 1))
    ensures !Less(NodeKey(f[i].name, i + 1), NodeKey(f[j].name, j + 1))
  {
    hide TableOf, Dec, RowAt, Less, NodeKey, Matches;
    RowMatches(f, i, name, parent);
    var a := RowOfNode(f, i);
    RowsOrdered(f, k, a, j, i);
    RowsOrdered(f, a, k, i, j);
    if a == k {
      RowKeysDiffer(f, i, j);
    }
  }

  /** The prefix scan with its re-check is exact but for shadows: it says an entry exists exactly if
      it does and no sibling shadows it, and then the id found is its own. */
  lemma LookupExact(f: Forest, name: string, parent: nat)
    requires DistinctUnder(f, parent)
    ensures var child := Child(f, parent, name);
            EntryExists(TableOf(f), name, Dec(parent)) <==>
            child.Some? && !Shadowed(f, name, parent, child.value)
    ensures EntryExists(TableOf(f), name, Dec(parent)) ==>
              NodeId(TableOf(f), name, Dec(parent)) == Dec(Child(f, parent, name).value)
  {
    hide TableOf, Dec, Holds, NodeKey, RowAt, Less, DistinctUnder, NodeId, Child, Matches;
    var t, child := TableOf(f), Child(f, parent, name);
    if i :| 0 <= i < |t| && Matches(t[i], name, Dec(parent)) {
      var k := FirstMatch(t, name, Dec(parent));
      var j := NodeOfRow(f, k);
      LookupStops(f, name, parent, k, j);
      if f[j].name == name {
        ChildFindsUnder(f, j);
        var id := j + 1;
        if i :| Shadows(f, i, name, parent, id) {
          StopIsFirst(f, name, parent, k, j, i);
        }
      } else if child.Some? {
        var c := child.value - 1;
        KeyHasName(name, c + 1);
        StopIsFirst(f, name, parent, k, j, c);
        assert Shadows(f, j, name, parent, c + 1);
      }
    } else {
      NoMatchNoEntry(t, name, Dec(parent));
      if child.Some? {
        var c := child.value - 1;
        KeyHasName(name, c + 1);
        RowMatches(f, c, name, parent);
        var k := RowOfNode(f, c);
        assert false;
      }
    }
  }

  /** Without the re-check: the id found is that of the sibling whose key starts with the name and
      comes first. */
  lemma LookupIs(f: Forest, name: string, parent: nat, i: nat)
    requires i < |f| && f[i].parent == parent && name <= NodeKey(f[i].name, i + 1)
    requires forall j | 0 <= j < |f| && j != i && f[j].parent == parent && name <= NodeKey(f[j].name, j + 1) ::
               Less(NodeKey(f[i].name, i + 1), NodeKey(f[j].name, j + 1))
    ensures NodeId(TableOf(f), name, Dec(parent)) == Dec(i + 1)
  {
    hide TableOf, Dec, RowAt, Less, NodeKey, Matches, NodeId;
    RowMatches(f, i, name, parent);
    var a := RowOfNode(f, i);
    var k := FirstMatch(TableOf(f), name, Dec(parent));
    var j := NodeOfRow(f, k);
    LookupStops(f, name, parent, k, j);
    StopIsFirst(f, name, parent, k, j, i);
  }

  /** Whatever is looked up, what is found is the id of a node, or nothing. */
  lemma {:induction false} ScanFinds(rows: seq<Row>, entry: string, parent: string, stale: string)
    ensures NodeIdFrom(rows, entry, parent, stale) == stale ||
            exists k :: 0 <= k < |rows| && Holds(rows[k], "entry:node_id", NodeIdFrom(rows, entry, parent, stale))
  {
    if rows != [] {
      var row := rows[0];
      var id := if entry <= row.key && "entry:node_id" in row.columns then row.columns["entry:node_id"] else stale;
      if !Matches(row, entry, parent) {
        ScanFinds(rows[1..], entry, parent, id);
        if k :| 0 <= k < |rows| - 1 && Holds(rows[1..][k], "entry:node_id", NodeIdFrom(rows[1..], entry, parent, id)) {
          assert rows[k + 1] == rows[1..][k];
        }
      }
    }
  }

  ghost predicate IsId(f: Forest, id: string) {
    exists m :: 0 < m <= |f| && id == Dec(m)
  }

  lemma LookupFinds(f: Forest, name: string, parent: string)
    ensures NodeId(TableOf(f), name, parent) == "" || IsId(f, NodeId(TableOf(f), name, parent))
  {
    hide TableOf, Dec, RowAt;
    ScanFinds(TableOf(f), name, parent, "");
    var id := NodeId(TableOf(f), name, parent);
    if k :| 0 <= k < |TableOf(f)| && Holds(TableOf(f)[k], "entry:node_id", id) {
      var i := NodeOfRow(f, k);
      RowAtReads(f, i, name, i + 1, 0);
      assert id == Dec(i + 1);
    }
  }

  lemma KeyHasName(name: string, id: nat)
    ensures name <= NodeKey(name, id)
  {}

  lemma NoMatchNoEntry(t: seq<Row>, name: string, parent: string)
    requires forall i | 0 <= i < |t| :: !Matches(t[i], name, parent)
    ensures !EntryExists(t, name, parent)
  {}

  // ------------------------------------------------------------------ names nothing can shadow

  /** Only characters that sort after the dash. */
  predicate Plain(name: string) {
    forall i | 0 <= i < |name| :: name[i] > '-'
  }

  ghost predicate AllPlain(names: seq<string>) {
    forall i | 0 <= i < |names| :: Plain(names[i])
  }

  ghost predicate PlainForest(f: Forest) {
    forall i | 0 <= i < |f| :: Plain(f[i].name)
  }

  lemma PrefixOfKey(name: string, other: string, id: nat)
    requires '-' !in name && name <= NodeKey(other, id)
    ensures name <= other
  {
    assert NodeKey(other, id)[|other|] == '-';
    assert forall i | 0 <= i < |name| :: name[i] == NodeKey(other, id)[i];
  }

  lemma ExtensionOrder(name: string, other: string, id: nat, otherId: nat)
    requires name <= other && |name| < |other| && other[|name|] != '-'
    ensures Less(NodeKey(other, otherId), NodeKey(name, id)) <==> other[|name|] < '-'
  {
    var rest := other[|name|..];
    assert NodeKey(other, otherId) == name + (rest + "-" + Dec(otherId));
    assert NodeKey(name, id) == name + ("-" + Dec(id));
    LessAfterPrefix(name, rest + "-" + Dec(otherId), "-" + Dec(id));
  }

  /** Among names without a dash, the shadows of an entry are its siblings whose names go on, after
      the entry's name, with a character that sorts before the dash. */
  lemma ShadowsIff(f: Forest, i: nat, name: string, parent: nat)
    requires ForestInv(f) && Child(f, parent, name).Some? && i < |f| && '-' !in name && '-' !in f[i].name
    ensures Shadows(f, i, name, parent, Child(f, parent, name).value) <==>
            f[i].parent == parent && name <= f[i].name && |name| < |f[i].name| && f[i].name[|name|] < '-'
  {
    hide Less, Dec;
    var id := Child(f, parent, name).value;
    if f[i].parent == parent && name <= NodeKey(f[i].name, i + 1) {
      PrefixOfKey(name, f[i].name, i + 1);
      if f[i].name == name {
        ChildFinds(f, i);
        LessIsStrict(NodeKey(name, id), NodeKey(name, id));
      } else {
        ExtensionOrder(name, f[i].name, id, i + 1);
      }
    }
  }

  lemma PlainUnshadowed(f: Forest, name: string, parent: nat)
    requires ForestInv(f) && PlainForest(f) && Plain(name) && Child(f, parent, name).Some?
    ensures !Shadowed(f, name, parent, Child(f, parent, name).value)
  {
    hide Shadows;
    var id := Child(f, parent, name).value;
    if i :| Shadows(f, i, name, parent, id) {
      ShadowBound(f, i, name, parent, id);
      ShadowsIff(f, i, name, parent);
    }
  }

  /** With plain names the lookup is exact. */
  lemma PlainLookup(f: Forest, name: string, parent: nat)
    requires ForestInv(f) && PlainForest(f) && Plain(name)
    ensures EntryExists(TableOf(f), name, Dec(parent)) <==> Child(f, parent, name).Some?
    ensures Child(f, parent, name).Some? ==>
              NodeId(TableOf(f), name, Dec(parent)) == Dec(Child(f, parent, name).value)
  {
    hide TableOf, Dec, Shadowed, NodeId;
    LookupExact(f, name, parent);
    if Child(f, parent, name).Some? {
      PlainUnshadowed(f, name, parent);
    }
  }

  lemma ShadowBound(f: Forest, i: nat, name: string, parent: nat, id: nat)
    requires Shadows(f, i, name, parent, id)
    ensures i < |f|
  {}

  // ------------------------------------------------------------------ URLs

  lemma NamesOfUrl(url: Url)
    requires UrlOk(url)
    ensures ValidNames(Names(url))
    ensures Names(url) != [] ==> GetLast(url) == Last(Names(url))
  {
    if url.path != "" {
      SplitConcat(url.head, url.path[1..]);
      assert url.head + "/" + url.path[1..] == url.head + url.path;
      assert url.path == "/" + url.path[1..];
      DropEmptyConcat(Split(url.head), Split(url.path[1..]));
      assert Split(url.path) == [""] + Split(url.path[1..]);
      assert Split(url.path)[1..] == Split(url.path[1..]);
    }
  }

  lemma NoRootSiblings(f: Forest, name: string)
    ensures !EntryExists(TableOf(f), name, "")
  {
    hide TableOf, EntryExists;
    forall k | 0 <= k < |TableOf(f)| ensures !Matches(TableOf(f)[k], name, "") {
      var i := NodeOfRow(f, k);
    }
    NoMatchNoEntry(TableOf(f), name, "");
  }

  lemma LastResolves(f: Forest, names: seq<string>)
    requires names != []
    ensures Resolve(f, 0, names) ==
            if Resolve(f, 0, Front(names)).None? then None
            else Child(f, Resolve(f, 0, Front(names)).value, Last(names))
  {
    assert names == Front(names) + [Last(names)];
    ResolveSnoc(f, 0, Front(names), Last(names));
  }

  // ------------------------------------------------------------------ creating rows

  /** Mutating several columns of a new row one by one. */
  lemma AddNodeRow(t: seq<Row>, name: string, id: string, parent: string)
    requires ColumnsAt(t, name + "-" + id) == map[]
    ensures AddNode(t, name, id, parent) ==
            Put(t, Row(name + "-" + id, map["entry:node_id" := id, "entry:node_name" := name,
                                            "entry:parent_id" := parent, "entry:is_dir" := "true"]))
  {
    hide Put, ColumnsAt;
    var key := name + "-" + id;
    var c1: Columns := map["entry:node_id" := id];
    var c2 := c1["entry:node_name" := name];
    var c3 := c2["entry:parent_id" := parent];
    var c4 := c3["entry:is_dir" := "true"];
    assert map["entry:node_id" := id] == c1;
    PutPut(t, key, c1, c2);
    PutPut(t, key, c2, c3);
    PutPut(t, key, c3, c4);
    assert c4 == map["entry:node_id" := id, "entry:node_name" := name, "entry:parent_id" := parent, "entry:is_dir" := "true"];
  }

  lemma NewKeyIsFresh(f: Forest, name: string)
    ensures ColumnsAt(TableOf(f), NodeKey(name, |f| + 1)) == map[]
  {
    hide TableOf, NodeKey;
    forall r | r in TableOf(f) ensures r.key != NodeKey(name, |f| + 1) {
      var k :| 0 <= k < |TableOf(f)| && TableOf(f)[k] == r;
      var i := NodeOfRow(f, k);
      RowAtReads(f, i, name, |f| + 1, 0);
    }
    ColumnsAtNone(TableOf(f), NodeKey(name, |f| + 1));
  }

  lemma AddNodeRefines(f: Forest, name: string, parent: nat)
    ensures AddNode(TableOf(f), name, Dec(|f| + 1), Dec(parent)) == TableOf(f + [Node(name, parent, true)])
  {
    hide AddNode, ColumnsAt;
    var g := f + [Node(name, parent, true)];
    NewKeyIsFresh(f, name);
    AddNodeRow(TableOf(f), name, Dec(|f| + 1), Dec(parent));
    assert g[..|g| - 1] == f;
  }

  lemma FlagMutation(f: Forest, dir: bool)
    requires f != []
    ensures var n := |f| - 1;
            Mutated(TableOf(f), NodeKey(f[n].name, |f|), "entry:is_dir", Flag(dir)) ==
            TableOf(f[n := f[n].(dir := dir)])
  {
    hide Put, ColumnsAt, NodeKey;
    var n, t := |f| - 1, TableOf(f[..|f| - 1]);
    var g := f[n := f[n].(dir := dir)];
    assert g[..n] == f[..n];
    PutPut(t, NodeKey(f[n].name, |f|), NodeColumns(f[n], |f|), NodeColumns(g[n], |f|));
    assert NodeColumns(f[n], |f|)["entry:is_dir" := Flag(dir)] == NodeColumns(g[n], |f|);
  }

  lemma BareKeyIsNoNode(f: Forest, t: seq<Row>, name: string, columns: Columns)
    requires Sorted(t)
    ensures Put(t, Row(name + "-", columns)) != TableOf(f)
  {
    hide TableOf, Put, Dec;
    var row := Row(name + "-", columns);
    PutKeeps(t, row);
    KeysEndInDigits(f);
    assert row in Put(t, row) && !IsDigit(row.key[|row.key| - 1]);
  }

  lemma KeysEndInDigits(f: Forest)
    ensures forall r | r in TableOf(f) :: r.key != "" && IsDigit(r.key[|r.key| - 1])
  {
    hide TableOf;
    forall r | r in TableOf(f) ensures r.key != "" && IsDigit(r.key[|r.key| - 1]) {
      var k :| 0 <= k < |TableOf(f)| && TableOf(f)[k] == r;
      var i := NodeOfRow(f, k);
      assert r.key[|r.key| - 1] == Dec(i + 1)[|Dec(i + 1)| - 1];
    }
  }
}
