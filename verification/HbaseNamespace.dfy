/** The namespace functions over the HBase client: they scan and mutate rows.  Each method is tied,
    for any table whatever, to a function of the rows; None and `ok == false` stand for the exception
    that converting a string to a number may throw. */
module HbaseNamespace {
  import opened Options
  import opened Paths
  import opened HbaseTable

  /** A URL: everything before its path, and the path, which is empty or starts with a slash. */
  datatype Url = Url(head: string, path: string)

  predicate UrlOk(url: Url) {
    url.path == "" || url.path[0] == '/'
  }

  function Names(url: Url): seq<string> {
    GetPathArray(url.path)
  }

  /** The last token of the whole URL, not only of its path. */
  function GetLast(url: Url): string {
    Last(GetPathArray(url.head + url.path))
  }

  // ------------------------------------------------------------------ what the scans find

  predicate Holds(row: Row, column: string, value: string) {
    column in row.columns && row.columns[column] == value
  }

  /** The row the scan stops at: its key starts with the entry's name. */
  predicate Matches(row: Row, entry: string, parent: string) {
    entry <= row.key && Holds(row, "entry:parent_id", parent)
  }

  /** The id of the first row that matches; without one, that of the last row whose key starts with
      `entry`, or `stale`. */
  function NodeIdFrom(rows: seq<Row>, entry: string, parent: string, stale: string): string {
    if rows == [] then stale
    else
      var row := rows[0];
      var id := if entry <= row.key && "entry:node_id" in row.columns then row.columns["entry:node_id"] else stale;
      if Matches(row, entry, parent) then id else NodeIdFrom(rows[1..], entry, parent, id)
  }

  function NodeId(rows: seq<Row>, entry: string, parent: string): string {
    NodeIdFrom(rows, entry, parent, "")
  }

  predicate RowWith(rows: seq<Row>, key: string, parent: string) {
    exists i | 0 <= i < |rows| :: rows[i].key == key && Holds(rows[i], "entry:parent_id", parent)
  }

  predicate EntryExists(rows: seq<Row>, name: string, parent: string) {
    RowWith(rows, name + "-" + NodeId(rows, name, parent), parent)
  }

  /** How a walk along a path ends: by an exception, at a missing component, or at the end, with the
      id string of the last component's parent. */
  datatype Walked = Threw | Missing | Reached(parent: string)

  function WalkUrl(rows: seq<Row>, parentId: int, parent: string, names: seq<string>): Walked
    decreases |names|
  {
    if names == [] then Reached(parent)
    else
      var p := IntString(parentId);
      if !EntryExists(rows, names[0], p) then Missing
      else
        var id := ParseInt(NodeId(rows, names[0], p));
        if id.None? then Threw else WalkUrl(rows, id.value, p, names[1..])
  }

  function UrlExists(rows: seq<Row>, url: Url): Option<bool> {
    match WalkUrl(rows, 0, "", Names(url))
    case Threw => None
    case Missing => Some(false)
    case Reached(parent) => Some(EntryExists(rows, GetLast(url), parent))
  }

  /** The same walk without asking whether the entries exist. */
  function ParentFrom(rows: seq<Row>, parentId: int, parent: string, names: seq<string>): Option<string>
    decreases |names|
  {
    if names == [] then Some(parent)
    else
      var p := IntString(parentId);
      var id := ParseInt(NodeId(rows, names[0], p));
      if id.None? then None else ParentFrom(rows, id.value, p, names[1..])
  }

  function ParentIdOfEntry(rows: seq<Row>, url: Url): Option<string> {
    ParentFrom(rows, 0, "", Names(url))
  }

  function NewNodeId(rows: seq<Row>): string {
    Dec(1 + |rows|)
  }

  /** The four mutations that add a node. */
  function AddNode(rows: seq<Row>, name: string, id: string, parent: string): seq<Row> {
    var key := name + "-" + id;
    var r1 := Mutated(rows, key, "entry:node_id", id);
    var r2 := Mutated(r1, key, "entry:node_name", name);
    var r3 := Mutated(r2, key, "entry:parent_id", parent);
    Mutated(r3, key, "entry:is_dir", "true")
  }

  datatype Creation = Creation(rows: seq<Row>, nodeId: string, ok: bool)

  function CreateFrom(rows: seq<Row>, parentId: int, names: seq<string>, nodeId: string): Creation
    decreases |names|
  {
    if names == [] then Creation(rows, nodeId, true)
    else
      var p := IntString(parentId);
      if !EntryExists(rows, names[0], p) then
        var id := NewNodeId(rows);
        var added := AddNode(rows, names[0], id, p);
        if ParseInt(id).None? then Creation(added, id, false)
        else CreateFrom(added, ParseInt(id).value, names[1..], id)
      else
        var id := ParseInt(NodeId(rows, names[0], p));
        if id.None? then Creation(rows, nodeId, false)
        else CreateFrom(rows, id.value, names[1..], nodeId)
  }

  function Flag(isDir: bool): string {
    if isDir then "true" else "false"
  }

  function CreateUrl(rows: seq<Row>, url: Url, isDir: bool): (seq<Row>, bool) {
    var c := CreateFrom(rows, 0, Names(url), "");
    if !c.ok then (c.rows, false)
    else (Mutated(c.rows, GetLast(url) + "-" + c.nodeId, "entry:is_dir", Flag(isDir)), true)
  }

  // ------------------------------------------------------------------ attributes

  /** The id the attribute calls find for `url`; they do not ask whether it exists. */
  function Target(nodes: seq<Row>, url: Url): Option<string> {
    var parent := ParentIdOfEntry(nodes, url);
    if parent.None? then None else Some(NodeId(nodes, GetLast(url), parent.value))
  }

  function RowKey(url: Url, nodeId: string): string {
    GetLast(url) + "-" + nodeId
  }

  function WithAttribute(metadata: seq<Row>, rowKey: string, nodeId: string, key: string, value: string): seq<Row> {
    Mutated(Mutated(metadata, rowKey, "metakey:" + key, value), rowKey, "entry:node_id", nodeId)
  }

  function WithoutAttribute(metadata: seq<Row>, rowKey: string, key: string): seq<Row> {
    var columns := ColumnsAt(metadata, rowKey);
    if "metakey:" + key !in columns then metadata else Put(metadata, Row(rowKey, columns - {"metakey:" + key}))
  }

  /** The first cell of that row key and column. */
  function CellAt(t: seq<Row>, rowKey: string, column: string): Option<string> {
    if t == [] then None
    else if t[0].key == rowKey && column in t[0].columns then Some(t[0].columns[column])
    else CellAt(t[1..], rowKey, column)
  }

  // ------------------------------------------------------------------ the client and its methods

  class HbaseClient {
    var nodes: seq<Row>
    var metadata: seq<Row>

    constructor ()
      ensures nodes == [] && metadata == []
    {
      nodes, metadata := [], [];
    }

    method MutateNodesRow(key: string, column: string, value: string)
      modifies this`nodes
      ensures nodes == Mutated(old(nodes), key, column, value)
    {
      nodes := Mutated(nodes, key, column, value);
    }

    method MutateMetadataRow(key: string, column: string, value: string)
      modifies this`metadata
      ensures metadata == Mutated(old(metadata), key, column, value)
    {
      metadata := Mutated(metadata, key, column, value);
    }
  }

  method GetNodeId(client: HbaseClient, entry: string, parentId: string) returns (nodeId: string)
    ensures nodeId == NodeId(client.nodes, entry, parentId)
  {
    nodeId := "";
    var flag := false;
    var i := 0;
    while i < |client.nodes|
      invariant i <= |client.nodes| && !flag
      invariant NodeId(client.nodes, entry, parentId) == NodeIdFrom(client.nodes[i..], entry, parentId, nodeId)
    {
      var value := client.nodes[i];
      assert client.nodes[i..][0] == value && client.nodes[i..][1..] == client.nodes[i + 1..];
      if entry <= value.key {
        if "entry:node_id" in value.columns {
          nodeId := value.columns["entry:node_id"];
        }
        if "entry:parent_id" in value.columns && value.columns["entry:parent_id"] == parentId {
          flag := true;
        }
        if flag {
          return;
        }
      }
      i := i + 1;
    }
  }

  method HasEntry(client: HbaseClient, nodeName: string, parentId: string) returns (found: bool)
    ensures found == EntryExists(client.nodes, nodeName, parentId)
  {
    var nodeId := GetNodeId(client, nodeName, parentId);
    var i := 0;
    while i < |client.nodes|
      invariant i <= |client.nodes|
      invariant forall k | 0 <= k < i ::
        !(client.nodes[k].key == nodeName + "-" + nodeId && Holds(client.nodes[k], "entry:parent_id", parentId))
    {
      var value := client.nodes[i];
      if value.key == nodeName + "-" + nodeId {
        if "entry:parent_id" in value.columns && value.columns["entry:parent_id"] == parentId {
          return true;
        }
      }
      i := i + 1;
    }
    found := false;
  }

  method HasUrl(client: HbaseClient, url: Url) returns (found: Option<bool>)
    ensures found == UrlExists(client.nodes, url)
  {
    var names := Names(url);
    var parentId := 0;
    var parent := "";
    var i := 0;
    while i < |names|
      invariant i <= |names|
      invariant WalkUrl(client.nodes, 0, "", names) == WalkUrl(client.nodes, parentId, parent, names[i..])
    {
      assert names[i..][0] == names[i] && names[i..][1..] == names[i + 1..];
      parent := IntString(parentId);
      var exists_ := HasEntry(client, names[i], parent);
      if !exists_ {
        return Some(false);
      }
      var nodeId := GetNodeId(client, names[i], parent);
      if ParseInt(nodeId).None? {
        return None;
      }
      parentId := ParseInt(nodeId).value;
      i := i + 1;
    }
    var last := HasEntry(client, GetLast(url), parent);
    found := Some(last);
  }

  method GetNewNodeId(client: HbaseClient) returns (id: string)
    ensures id == NewNodeId(client.nodes)
  {
    var retval := 1;
    var i := 0;
    while i < |client.nodes|
      invariant i <= |client.nodes| && retval == 1 + i
    {
      retval := retval + 1;
      i := i + 1;
    }
    id := Dec(retval);
  }

  method GetParentIdOfEntry(client: HbaseClient, url: Url) returns (parent: Option<string>)
    ensures parent == ParentIdOfEntry(client.nodes, url)
  {
    var names := Names(url);
    var parentId := 0;
    var pidstring := "";
    var i := 0;
    while i < |names|
      invariant i <= |names|
      invariant ParentIdOfEntry(client.nodes, url) == ParentFrom(client.nodes, parentId, pidstring, names[i..])
    {
      assert names[i..][0] == names[i] && names[i..][1..] == names[i + 1..];
      pidstring := IntString(parentId);
      var nodeId := GetNodeId(client, names[i], pidstring);
      if ParseInt(nodeId).None? {
        return None;
      }
      parentId := ParseInt(nodeId).value;
      i := i + 1;
    }
    parent := Some(pidstring);
  }

  method MakeUrl(client: HbaseClient, url: Url, isDir: bool) returns (ok: bool)
    modifies client`nodes
    ensures (client.nodes, ok) == CreateUrl(old(client.nodes), url, isDir)
  {
    var names := Names(url);
    var parentId := 0;
    var nodeId := "";
    ghost var c := CreateFrom(client.nodes, 0, names, "");
    var i := 0;
    while i < |names|
      invariant i <= |names|
      invariant c == CreateFrom(client.nodes, parentId, names[i..], nodeId)
    {
      var entry := names[i];
      assert names[i..][0] == entry && names[i..][1..] == names[i + 1..];
      var pidstring := IntString(parentId);
      var found := HasEntry(client, entry, pidstring);
      var next;
      if !found {
        nodeId := GetNewNodeId(client);
        client.MutateNodesRow(entry + "-" + nodeId, "entry:node_id", nodeId);
        client.MutateNodesRow(entry + "-" + nodeId, "entry:node_name", entry);
        client.MutateNodesRow(entry + "-" + nodeId, "entry:parent_id", pidstring);
        client.MutateNodesRow(entry + "-" + nodeId, "entry:is_dir", "true");
        next := nodeId;
      } else {
        next := GetNodeId(client, entry, pidstring);
      }
      if ParseInt(next).None? {
        return false;
      }
      parentId := ParseInt(next).value;
      i := i + 1;
    }
    client.MutateNodesRow(GetLast(url) + "-" + nodeId, "entry:is_dir", Flag(isDir));
    ok := true;
  }

  /** How construction ends. */
  datatype Opened = Done | AlreadyExists | BadParameter | Thrown

  predicate AtRoot(url: Url) {
    url.path == "" || url.path == "/"
  }

  /** Whether a constructor gets to the branch that creates; a directory does not at the root. */
  predicate MayCreate(url: Url, create: bool, exclusive: bool, isDir: bool) {
    create && !exclusive && !(isDir && AtRoot(url))
  }

  /** The check whether the URL exists, with the exception thrown if it does not. */
  function Checked(rows: seq<Row>, url: Url, otherwise: Opened): Opened {
    match UrlExists(rows, url)
    case None => Thrown
    case Some(there) => if there then Done else otherwise
  }

  /** The constructors of adverts and of directories.  An exclusive create insists that the URL does
      exist; only adverts are checked in the end. */
  function Constructed(rows: seq<Row>, url: Url, create: bool, exclusive: bool, isDir: bool): (seq<Row>, Opened) {
    if isDir && AtRoot(url) then (rows, Done)
    else if create && exclusive then (rows, Checked(rows, url, AlreadyExists))
    else if !create then (rows, if isDir then Done else Checked(rows, url, BadParameter))
    else if UrlExists(rows, url) == Some(true) then (rows, Done)
    else if UrlExists(rows, url).None? then (rows, Thrown)
    else
      var (made, ok) := CreateUrl(rows, url, isDir);
      (made, if !ok then Thrown else if isDir then Done else Checked(made, url, BadParameter))
  }

  method Check(client: HbaseClient, url: Url, otherwise: Opened) returns (outcome: Opened)
    ensures outcome == Checked(client.nodes, url, otherwise)
  {
    var found := HasUrl(client, url);
    outcome := if found.None? then Thrown else if found.value then Done else otherwise;
  }

  method Construct(client: HbaseClient, url: Url, create: bool, exclusive: bool, isDir: bool) returns (outcome: Opened)
    modifies client`nodes
    ensures (client.nodes, outcome) == Constructed(old(client.nodes), url, create, exclusive, isDir)
  {
    if isDir && AtRoot(url) {
      return Done;
    }
    if create && exclusive {
      outcome := Check(client, url, AlreadyExists);
      if outcome != Done {
        return;
      }
    } else if create {
      var found := HasUrl(client, url);
      if found.None? {
        return Thrown;
      }
      if !found.value {
        var made := MakeUrl(client, url, isDir);
        if !made {
          return Thrown;
        }
      }
    }
    if isDir {
      return Done;
    }
    outcome := Check(client, url, BadParameter);
  }

  /** The first three lines of every attribute call. */
  method FindTarget(client: HbaseClient, url: Url) returns (nodeId: Option<string>)
    ensures nodeId == Target(client.nodes, url)
  {
    var parent := GetParentIdOfEntry(client, url);
    if parent.None? {
      return None;
    }
    var id := GetNodeId(client, GetLast(url), parent.value);
    nodeId := Some(id);
  }

  method SetAttribute(client: HbaseClient, url: Url, key: string, value: string) returns (ok: bool)
    modifies client`metadata
    ensures ok == Target(client.nodes, url).Some?
    ensures client.metadata ==
            if !ok then old(client.metadata)
            else var id := Target(client.nodes, url).value;
                 WithAttribute(old(client.metadata), RowKey(url, id), id, key, value)
  {
    var nodeId := FindTarget(client, url);
    if nodeId.None? {
      return false;
    }
    client.MutateMetadataRow(RowKey(url, nodeId.value), "metakey:" + key, value);
    client.MutateMetadataRow(RowKey(url, nodeId.value), "entry:node_id", nodeId.value);
    ok := true;
  }

  method RemoveAttribute(client: HbaseClient, url: Url, key: string) returns (ok: bool)
    modifies client`metadata
    ensures ok == Target(client.nodes, url).Some?
    ensures client.metadata ==
            if !ok then old(client.metadata)
            else WithoutAttribute(old(client.metadata), RowKey(url, Target(client.nodes, url).value), key)
  {
    var nodeId := FindTarget(client, url);
    if nodeId.None? {
      return false;
    }
    client.metadata := WithoutAttribute(client.metadata, RowKey(url, nodeId.value), key);
    ok := true;
  }

  /** What the attribute calls read; None if the id cannot be found or there is no such cell. */
  function AttributeAt(nodes: seq<Row>, metadata: seq<Row>, url: Url, key: string): Option<string> {
    if Target(nodes, url).None? then None
    else CellAt(metadata, RowKey(url, Target(nodes, url).value), "metakey:" + key)
  }

  /** Not ok if the call throws; with no such cell it answers, and the caller's string stays as it was. */
  method GetAttribute(client: HbaseClient, url: Url, key: string) returns (ok: bool, ret: Option<string>)
    ensures ok == Target(client.nodes, url).Some?
    ensures ret == AttributeAt(client.nodes, client.metadata, url, key)
  {
    var nodeId := FindTarget(client, url);
    if nodeId.None? {
      return false, None;
    }
    var rowKey := RowKey(url, nodeId.value);
    ok, ret := true, None;
    var i := 0;
    while i < |client.metadata|
      invariant i <= |client.metadata| && ok && ret == None
      invariant CellAt(client.metadata, rowKey, "metakey:" + key) ==
                CellAt(client.metadata[i..], rowKey, "metakey:" + key)
    {
      var value := client.metadata[i];
      assert client.metadata[i..][0] == value && client.metadata[i..][1..] == client.metadata[i + 1..];
      if value.key == rowKey {
        if "metakey:" + key in value.columns {
          return true, Some(value.columns["metakey:" + key]);
        }
      }
      i := i + 1;
    }
  }

  /** None if the call throws. */
  method AttributeExists(client: HbaseClient, url: Url, key: string) returns (ret: Option<bool>)
    ensures ret == if Target(client.nodes, url).None? then None
                   else Some(AttributeAt(client.nodes, client.metadata, url, key).Some?)
  {
    var nodeId := FindTarget(client, url);
    if nodeId.None? {
      return None;
    }
    var rowKey := RowKey(url, nodeId.value);
    var i := 0;
    while i < |client.metadata|
      invariant i <= |client.metadata|
      invariant CellAt(client.metadata, rowKey, "metakey:" + key) ==
                CellAt(client.metadata[i..], rowKey, "metakey:" + key)
    {
      var value := client.metadata[i];
      assert client.metadata[i..][0] == value && client.metadata[i..][1..] == client.metadata[i + 1..];
      if value.key == rowKey {
        if "metakey:" + key in value.columns {
          return Some(true);
        }
      }
      i := i + 1;
    }
    ret := Some(false);
  }
}
