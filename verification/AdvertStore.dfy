/** The advert server's state and the effect of each of its commands, as values.

    The collection of documents is a map whose keys are paths, because the path is a unique index
    there.  A key is the array of names whose string the document carries as `path`; a query by
    path string is `Locate`. */
module AdvertStore {
  import opened Options
  import opened Paths

  /** Document ids are never used twice; 0 stands for the empty id string. */
  type Id = nat

  datatype Value = Scalar(text: string) | Vector(items: seq<string>)

  /** One element of a document's redundant list of children. */
  datatype Entry = Entry(name: string, dir: bool)

  datatype Doc = Doc(id: Id, path: string, name: string, dir: bool, nodes: seq<Entry>,
                     attributes: Option<map<string, Value>>, data: Option<string>)

  type Path = seq<string>

  const ROOT: Path := []

  type Docs = map<Path, Doc>

  datatype Kind = Updated | Removed

  datatype Server = Server(docs: Docs, queue: map<Id, Kind>, nextId: Id)

  datatype Command =
    | Exists(path: string)
    | Open(path: string)
    | Create(path: string, dir: bool)
    | CreateParents(path: string, dir: bool)
    | Remove(path: string)
    | SetAttribute(path: string, key: string, val: Value)
    | RemoveAttribute(path: string, key: string)
    | SetString(path: string, text: string)
    | RemoveString(path: string)

  /** `NoReply`: the handler ends without sending anything, so the caller waits forever.
      `Crash`: the handler dereferences null and the exception leaves it. */
  datatype Reply = OkId(id: Id) | OkRemoved | True | False | Error | NoReply | Crash

  /** What a command does: the new collection, the notices it puts in the queue, its answer. */
  datatype Effect = Effect(docs: Docs, notices: map<Id, Kind>, nextId: Id, reply: Reply)

  /** `findOne({path: p})`: every stored path string is canonical, so a string that is not finds nothing. */
  function Locate(docs: Docs, p: string): Option<Doc> {
    if Canonical(p) && GetPathArray(p) in docs then Some(docs[GetPathArray(p)]) else None
  }

  function Apply(s: Server, cmd: Command): (Server, Reply) {
    var e := EffectOf(s, cmd);
    (Server(e.docs, s.queue + e.notices, e.nextId), e.reply)
  }

  function EffectOf(s: Server, cmd: Command): Effect {
    var a := GetPathArray(cmd.path);
    match cmd
    case Exists(_) => Silent(s, if a in s.docs then True else False)
    case Open(_) => Silent(s, if a in s.docs then OkId(s.docs[a].id) else Error)
    case Create(_, dir) => CreateEffect(s.docs, s.nextId, a, dir)
    case CreateParents(_, dir) => CreateParentsFrom(s.docs, map[], s.nextId, a, 0, dir)
    case Remove(_) => RemoveEffect(s, a)
    case SetAttribute(_, key, val) =>
      if a !in s.docs then Silent(s, NoReply)
      else
        var attributes := if s.docs[a].attributes.None? then map[] else s.docs[a].attributes.value;
        Change(s, a, s.docs[a].(attributes := Some(attributes[key := val])))
    case RemoveAttribute(_, key) =>
      if a !in s.docs then Silent(s, NoReply)
      else if s.docs[a].attributes.None? then Silent(s, Crash)
      else Change(s, a, s.docs[a].(attributes := Some(s.docs[a].attributes.value - {key})))
    case SetString(_, text) =>
      if a !in s.docs then Silent(s, NoReply) else Change(s, a, s.docs[a].(data := Some(text)))
    case RemoveString(_) =>
      if a !in s.docs then Silent(s, NoReply) else Change(s, a, s.docs[a].(data := Some("")))
  }

  function Silent(s: Server, reply: Reply): Effect {
    Effect(s.docs, map[], s.nextId, reply)
  }

  /** Save `d` in place of the document stored at `a`. */
  function Change(s: Server, a: Path, d: Doc): Effect {
    Effect(s.docs[a := d], map[d.id := Updated], s.nextId, OkId(d.id))
  }

  function NewDoc(id: Id, a: Path, dir: bool): Doc {
    Doc(id, PathString(a), Last(a), dir, [], None, None)
  }

  /** Append the new child to the list of the parent at `p`, then save the new document. */
  function AddChild(docs: Docs, p: Path, id: Id, a: Path, dir: bool): Docs
    requires p in docs
  {
    docs[p := docs[p].(nodes := docs[p].nodes + [Entry(Last(a), dir)])][a := NewDoc(id, a, dir)]
  }

  function CreateEffect(docs: Docs, nextId: Id, a: Path, dir: bool): Effect {
    if a in docs then Effect(docs, map[], nextId, OkId(docs[a].id))
    else if Front(a) in docs then
      Effect(AddChild(docs, Front(a), nextId, a, dir), map[docs[Front(a)].id := Updated], nextId + 1, OkId(nextId))
    else Effect(docs, map[], nextId, Error)
  }

  /** The parent that step `i` looks up: `slice(0, i - 1)` counts from the end when `i` is 0. */
  function StepParent(a: Path, i: nat): Path
    requires i <= |a|
  {
    if i == 0 then Front(a) else a[..i - 1]
  }

  /** The command's recursion from step `i` on. */
  function CreateParentsFrom(docs: Docs, notices: map<Id, Kind>, nextId: Id, a: Path, i: nat, dir: bool): Effect
    requires i <= |a|
    decreases |a| - i
  {
    var k, p := a[..i], StepParent(a, i);
    if k in docs then
      if i == |a| then Effect(docs, notices, nextId, OkId(docs[k].id))
      else CreateParentsFrom(docs, notices, nextId, a, i + 1, dir)
    else if p !in docs then Effect(docs, notices, nextId, Crash)
    else
      var docs' := AddChild(docs, p, nextId, k, if i == |a| then dir else true);
      var notices' := notices[docs[p].id := Updated];
      if i == |a| then Effect(docs', notices', nextId + 1, OkId(nextId))
      else CreateParentsFrom(docs', notices', nextId + 1, a, i + 1, dir)
  }

  /** The stored paths that are `k` or lie below it. */
  function Subtree(docs: Docs, k: Path): (r: set<Path>)
    ensures r <= docs.Keys
  {
    set x | x in docs && k <= x
  }

  function IdsOf(docs: Docs, keys: set<Path>): set<Id>
    requires keys <= docs.Keys
  {
    set x | x in keys :: docs[x].id
  }

  /** The entries not called `name`. */
  function Without(nodes: seq<Entry>, name: string): seq<Entry> {
    if nodes == [] then []
    else if nodes[0].name == name then Without(nodes[1..], name)
    else [nodes[0]] + Without(nodes[1..], name)
  }

  function RemoveEffect(s: Server, a: Path): Effect {
    if a !in s.docs || a == ROOT then Silent(s, OkRemoved)
    else
      var gone := Subtree(s.docs, a);
      var notices := map id | id in IdsOf(s.docs, gone) :: Removed;
      var kept := s.docs - gone;
      if Front(a) !in kept then Effect(kept, notices, s.nextId, OkRemoved)
      else
        var parent := kept[Front(a)].(nodes := Without(kept[Front(a)].nodes, s.docs[a].name));
        Effect(kept[Front(a) := parent], notices[parent.id := Updated], s.nextId, OkRemoved)
  }

  // ------------------------------------------------------------------ the invariant

  ghost predicate DistinctNames(nodes: seq<Entry>) {
    forall i, j | 0 <= i < j < |nodes| :: nodes[i].name != nodes[j].name
  }

  /** The entries of `a`'s list lead to stored documents with the same dir flag. */
  ghost predicate ListsStored(docs: Docs, a: Path)
    requires a in docs
  {
    forall e | e in docs[a].nodes :: ValidName(e.name) && a + [e.name] in docs && docs[a + [e.name]].dir == e.dir
  }

  /** The parent of `a` is stored and lists it. */
  ghost predicate ListedByParent(docs: Docs, a: Path)
    requires a in docs
  {
    && Front(a) in docs
    && docs[a].name == Last(a)
    && Entry(Last(a), docs[a].dir) in docs[Front(a)].nodes
  }

  /** At `a`, the two representations of the tree, paths and child lists, agree. */
  ghost predicate Fits(docs: Docs, a: Path)
    requires a in docs
  {
    DistinctNames(docs[a].nodes) && ListsStored(docs, a) && (a != ROOT ==> ListedByParent(docs, a))
  }

  ghost predicate TrueToPath(a: Path, d: Doc) {
    ValidNames(a) && d.path == PathString(a)
  }

  ghost predicate WellFormed(docs: Docs) {
    && ROOT in docs
    && (forall a {:trigger TrueToPath(a, docs[a])} | a in docs :: TrueToPath(a, docs[a]))
    && (forall a {:trigger Fits(docs, a)} | a in docs :: Fits(docs, a))
  }

  ghost predicate UniqueIds(docs: Docs, nextId: Id) {
    && (forall k | k in docs :: 0 < docs[k].id < nextId)
    && (forall k, l | k in docs && l in docs && docs[k].id == docs[l].id :: k == l)
  }

  ghost predicate Live(docs: Docs, id: Id) {
    exists k :: k in docs && docs[k].id == id
  }

  /** A queued notice says "removed" exactly for the ids that are gone. */
  ghost predicate QueueAgrees(s: Server) {
    forall id | id in s.queue :: 0 < id < s.nextId && (s.queue[id] == Removed <==> !Live(s.docs, id))
  }

  ghost predicate Valid(s: Server) {
    0 < s.nextId && WellFormed(s.docs) && UniqueIds(s.docs, s.nextId) && QueueAgrees(s)
  }

  /** The state once the start-up check has stored the root. */
  function Initial(): Server {
    Server(map[ROOT := Doc(1, "/", "", true, [], None, None)], map[], 2)
  }

  /** The document a get command finds by id. */
  ghost function Find(docs: Docs, id: Id): (r: Option<Doc>)
    ensures r.Some? <==> Live(docs, id)
    ensures r.Some? ==> r.value.id == id && exists k :: k in docs && docs[k] == r.value
  {
    if Live(docs, id) then
      var k :| k in docs && docs[k].id == id;
      Some(docs[k])
    else None
  }

  lemma InitialValid()
    ensures Valid(Initial())
  {}

  lemma FindStored(docs: Docs, nextId: Id, a: Path)
    requires UniqueIds(docs, nextId) && a in docs
    ensures Find(docs, docs[a].id) == Some(docs[a])
  {}

  /** What is stored is closed under taking prefixes. */
  lemma {:induction false} PrefixStored(docs: Docs, a: Path, x: Path)
    requires WellFormed(docs) && x in docs && a <= x
    ensures a in docs
    decreases |x|
  {
    if a != x {
      assert Fits(docs, x);
      PrefixStored(docs, a, Front(x));
    }
  }

  // ------------------------------------------------------------------ adding a child

  lemma FrontLast(a: Path)
    requires a != []
    ensures Front(a) + [Last(a)] == a
  {}

  lemma AddChildFits(docs: Docs, p: Path, id: Id, a: Path, dir: bool, x: Path)
    requires p in docs && ValidNames(a) && a != [] && p == Front(a) && a !in docs
    requires x in docs ==> Fits(docs, x)
    requires x in AddChild(docs, p, id, a, dir)
    ensures Fits(AddChild(docs, p, id, a, dir), x)
  {
    var n, docs' := Last(a), AddChild(docs, p, id, a, dir);
    FrontLast(a);
    if x == a {
      assert docs'[p].nodes[|docs[p].nodes|] == Entry(n, dir);
    } else {
      forall e | e in docs'[x].nodes
        ensures ValidName(e.name) && x + [e.name] in docs' && docs'[x + [e.name]].dir == e.dir
      {
        assert e in docs[x].nodes || (x == p && e == Entry(n, dir));
      }
      if x == p {
        forall i | 0 <= i < |docs[p].nodes| ensures docs[p].nodes[i].name != n {
          assert docs[p].nodes[i] in docs[p].nodes;
        }
      }
    }
  }

  lemma AddChildWellFormed(docs: Docs, p: Path, id: Id, a: Path, dir: bool)
    requires WellFormed(docs) && p in docs && ValidNames(a) && a != [] && p == Front(a) && a !in docs
    ensures WellFormed(AddChild(docs, p, id, a, dir))
  {
    var docs' := AddChild(docs, p, id, a, dir);
    forall x | x in docs' ensures Fits(docs', x) {
      AddChildFits(docs, p, id, a, dir, x);
    }
    forall x | x in docs' ensures TrueToPath(x, docs'[x]) {
      assert x in docs ==> TrueToPath(x, docs[x]);
    }
  }

  lemma AddChildIds(docs: Docs, p: Path, id: Id, a: Path, dir: bool)
    requires UniqueIds(docs, id) && p in docs && a !in docs && 0 < id
    ensures UniqueIds(AddChild(docs, p, id, a, dir), id + 1)
  {}

  // ------------------------------------------------------------------ removing a subtree

  lemma {:induction false} WithoutIn(nodes: seq<Entry>, name: string, e: Entry)
    ensures e in Without(nodes, name) <==> e in nodes && e.name != name
  {
    if nodes != [] {
      WithoutIn(nodes[1..], name, e);
      assert nodes == [nodes[0]] + nodes[1..];
    }
  }

  lemma {:induction false} WithoutDistinct(nodes: seq<Entry>, name: string)
    requires DistinctNames(nodes)
    ensures DistinctNames(Without(nodes, name))
  {
    if nodes != [] {
      WithoutDistinct(nodes[1..], name);
      var r := Without(nodes[1..], name);
      forall i | 0 <= i < |r| ensures r[i].name != nodes[0].name {
        WithoutIn(nodes[1..], name, r[i]);
      }
    }
  }

  /** `docs'` is `docs` without `a` and all below it, and without `a`'s entry in its parent's list. */
  ghost predicate Pruned(docs: Docs, docs': Docs, a: Path) {
    && docs'.Keys == docs.Keys - Subtree(docs, a)
    && (forall x | x in docs' ::
          docs'[x] == if x == Front(a) then docs[x].(nodes := Without(docs[x].nodes, Last(a))) else docs[x])
  }

  lemma RemovePrunes(s: Server, a: Path)
    requires a in s.docs && a != ROOT && Fits(s.docs, a)
    ensures Front(a) in s.docs && !(a <= Front(a))
    ensures Pruned(s.docs, RemoveEffect(s, a).docs, a)
  {
    FrontLast(a);
  }

  lemma PrunedFits(docs: Docs, docs': Docs, a: Path, x: Path)
    requires a in docs && a != ROOT && x in docs' && x in docs && Fits(docs, x)
    requires Pruned(docs, docs', a)
    ensures Fits(docs', x)
  {
    FrontLast(a);
    WithoutDistinct(docs[x].nodes, Last(a));
    forall e | e in docs'[x].nodes
      ensures ValidName(e.name) && x + [e.name] in docs' && docs'[x + [e.name]].dir == e.dir
    {
      WithoutIn(docs[x].nodes, Last(a), e);
      assert e in docs[x].nodes;
      assert a <= x + [e.name] ==> a == x + [e.name];
    }
    if x != ROOT {
      FrontLast(x);
      WithoutIn(docs[Front(x)].nodes, Last(a), Entry(Last(x), docs[x].dir));
    }
  }

  lemma PrunedWellFormed(docs: Docs, docs': Docs, a: Path)
    requires WellFormed(docs) && a in docs && a != ROOT && Pruned(docs, docs', a)
    ensures WellFormed(docs')
  {
    forall x | x in docs' ensures Fits(docs', x) {
      PrunedFits(docs, docs', a, x);
    }
    forall x | x in docs' ensures TrueToPath(x, docs'[x]) {
      assert TrueToPath(x, docs[x]);
    }
  }

  lemma RemoveWellFormed(s: Server, a: Path)
    requires WellFormed(s.docs) && a in s.docs && a != ROOT
    ensures WellFormed(RemoveEffect(s, a).docs)
  {
    assert Fits(s.docs, a);
    RemovePrunes(s, a);
    PrunedWellFormed(s.docs, RemoveEffect(s, a).docs, a);
  }
}
