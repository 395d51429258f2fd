/** The advert server's message handlers, changing the collection and the message queue in place. */
module AdvertServerModule {
  import opened Paths
  import opened Options
  import opened AdvertStore
  import opened AdvertCommands

  lemma LocateKey(docs: Docs, a: Path)
    requires ValidNames(a)
    ensures Locate(docs, PathString(a)) == if a in docs then Some(docs[a]) else None
  {
    ArrayRoundTrip(a);
  }

  // ------------------------------------------------------------------ the splice loop of remove

  lemma {:induction false} WithoutAppend(a: seq<Entry>, b: seq<Entry>, name: string)
    ensures Without(a + b, name) == Without(a, name) + Without(b, name)
  {
    if a == [] {
      assert a + b == b;
    } else {
      assert (a + b)[1..] == a[1..] + b;
      WithoutAppend(a[1..], b, name);
    }
  }

  lemma WithoutSplice(nodes: seq<Entry>, i: nat, name: string)
    requires i < |nodes| && nodes[i].name == name
    ensures Without(nodes[..i] + nodes[i + 1..], name) == Without(nodes, name)
  {
    assert nodes == nodes[..i] + nodes[i..] && nodes[i..][1..] == nodes[i + 1..];
    WithoutAppend(nodes[..i], nodes[i..], name);
    WithoutAppend(nodes[..i], nodes[i + 1..], name);
  }

  /** The loop steps past the element that moves into a spliced slot; with distinct names that
      element never has to go. */
  method SpliceOut(nodes: seq<Entry>, name: string) returns (r: seq<Entry>)
    requires DistinctNames(nodes)
    ensures r == Without(nodes, name)
  {
    r := nodes;
    var i := 0;
    while i < |r|
      invariant Without(r, name) == Without(nodes, name) && DistinctNames(r)
      invariant forall j | 0 <= j < i && j < |r| :: r[j].name != name
    {
      if r[i].name == name {
        WithoutSplice(r, i, name);
        r := r[..i] + r[i + 1..];
      }
      i := i + 1;
    }
    WithoutNone(r, name);
  }

  // ------------------------------------------------------------------ what the recursive remove relies on

  /** If `x` is stored below `a`, `nodes` lists the first step towards it, and that step is stored. */
  ghost predicate Step(docs: Docs, a: Path, nodes: seq<Entry>, x: Path) {
    x in docs && a < x ==> x[..|a| + 1] in docs && exists e :: e in nodes && e.name == x[|a|]
  }

  ghost predicate Leads(docs: Docs, a: Path, nodes: seq<Entry>) {
    forall x :: Step(docs, a, nodes, x)
  }

  /** The lists of all documents below `a` lead on. */
  ghost predicate LeadsBelow(docs: Docs, a: Path) {
    forall y {:trigger Leads(docs, y, docs[y].nodes)} | y in docs && a < y :: Leads(docs, y, docs[y].nodes)
  }

  lemma WellFormedLeads(docs: Docs, a: Path)
    requires WellFormed(docs) && a in docs
    ensures Leads(docs, a, docs[a].nodes)
  {
    forall x ensures Step(docs, a, docs[a].nodes, x) {
      if x in docs && a < x {
        var step := x[..|a| + 1];
        PrefixStored(docs, step, x);
        assert Fits(docs, step) && Front(step) == a && Last(step) == x[|a|];
      }
    }
  }

  /** The stored paths at or below the first `n` children in `nodes`. */
  ghost function Under(docs: Docs, a: Path, nodes: seq<Entry>, n: nat): (r: set<Path>)
    requires n <= |nodes|
    ensures r <= docs.Keys
  {
    set x | x in docs && exists j :: 0 <= j < n && a + [nodes[j].name] <= x
  }

  lemma UnderAll(docs: Docs, a: Path, nodes: seq<Entry>)
    requires Leads(docs, a, nodes)
    ensures Under(docs, a, nodes, |nodes|) == Subtree(docs, a) - {a}
  {
    forall x | x in Subtree(docs, a) - {a} ensures x in Under(docs, a, nodes, |nodes|) {
      assert |x| == |a| ==> x == a;
      assert Step(docs, a, nodes, x);
      var e :| e in nodes && e.name == x[|a|];
      var j :| 0 <= j < |nodes| && nodes[j] == e;
      assert a + [nodes[j].name] == x[..|a| + 1];
    }
  }

  lemma UnderNone(docs: Docs, queue: map<Id, Kind>, a: Path, nodes: seq<Entry>)
    ensures docs - Under(docs, a, nodes, 0) == docs && queue + Gone(docs, Under(docs, a, nodes, 0)) == queue
  {
    assert Under(docs, a, nodes, 0) == {};
  }

  lemma UnderNext(docs: Docs, a: Path, nodes: seq<Entry>, i: nat)
    requires i < |nodes|
    ensures Under(docs, a, nodes, i + 1)
              == Under(docs, a, nodes, i) + Subtree(docs - Under(docs, a, nodes, i), a + [nodes[i].name])
  {
    var u, u', c := Under(docs, a, nodes, i), Under(docs, a, nodes, i + 1), a + [nodes[i].name];
    forall x | x in docs ensures x in u' <==> x in u || c <= x {
      if x in u' {
        var j :| 0 <= j < i + 1 && a + [nodes[j].name] <= x;
        assert j < i ==> x in u;
      }
    }
  }

  /** What a child that is not stored adds to the subtrees taken out: nothing. */
  lemma UnderAbsent(docs: Docs, a: Path, nodes: seq<Entry>, i: nat)
    requires i < |nodes| && Leads(docs, a, nodes) && a + [nodes[i].name] !in docs - Under(docs, a, nodes, i)
    ensures Under(docs, a, nodes, i + 1) == Under(docs, a, nodes, i)
  {
    UnderNext(docs, a, nodes, i);
    var u, c := Under(docs, a, nodes, i), a + [nodes[i].name];
    forall x | x in docs && c <= x ensures x in u {
      assert Step(docs, a, nodes, x) && x[..|a| + 1] == c;
      var j :| 0 <= j < i && a + [nodes[j].name] <= c;
    }
  }

  /** Taking out whole subtrees below `a` leaves the rest led to. */
  lemma LeadsKept(docs: Docs, a: Path, nodes: seq<Entry>, n: nat, y: Path, list: seq<Entry>)
    requires n <= |nodes| && a <= y && Leads(docs, y, list)
    ensures Leads(docs - Under(docs, a, nodes, n), y, list)
  {
    var docs' := docs - Under(docs, a, nodes, n);
    forall x ensures Step(docs', y, list, x) {
      assert Step(docs, y, list, x);
      if x in docs' && y < x {
        var step := x[..|y| + 1];
        assert forall j | 0 <= j < n && a + [nodes[j].name] <= step :: a + [nodes[j].name] <= x;
      }
    }
  }

  /** What the recursive call on the child at `c` relies on, once the child itself is out. */
  lemma StepBelow(docs: Docs, a: Path, nodes: seq<Entry>, n: nat, c: Path)
    requires n <= |nodes| && LeadsBelow(docs, a) && a < c && c in docs - Under(docs, a, nodes, n)
    ensures var rest := docs - Under(docs, a, nodes, n) - {c};
            Leads(rest, c, docs[c].nodes) && LeadsBelow(rest, c)
  {
    var docs1 := docs - Under(docs, a, nodes, n);
    var rest := docs1 - {c};
    forall y, list | c <= y && Leads(docs, y, list) ensures Leads(rest, y, list) {
      LeadsKept(docs, a, nodes, n, y, list);
      forall x ensures Step(rest, y, list, x) {
        assert Step(docs1, y, list, x);
      }
    }
    assert Leads(docs, c, docs[c].nodes);
    forall y | y in rest && c < y ensures Leads(rest, y, rest[y].nodes) {
      assert Leads(docs, y, docs[y].nodes);
    }
  }

  function Gone(docs: Docs, keys: set<Path>): map<Id, Kind>
    requires keys <= docs.Keys
  {
    map id | id in IdsOf(docs, keys) :: Removed
  }

  /** The document at `x` carries its path and only valid names. */
  ghost predicate SoundDoc(docs: Docs, x: Path) {
    x in docs ==> TrueToPath(x, docs[x]) && forall e | e in docs[x].nodes :: ValidName(e.name)
  }

  ghost predicate Sound(docs: Docs) {
    forall x :: SoundDoc(docs, x)
  }

  lemma SoundAt(docs: Docs, x: Path)
    requires Sound(docs) && x in docs
    ensures TrueToPath(x, docs[x]) && forall e | e in docs[x].nodes :: ValidName(e.name)
  {
    assert SoundDoc(docs, x);
  }

  lemma SoundWithin(docs: Docs, docs': Docs)
    requires Sound(docs) && docs'.Keys <= docs.Keys && forall x | x in docs' :: docs'[x] == docs[x]
    ensures Sound(docs')
  {
    forall x ensures SoundDoc(docs', x) {
      assert SoundDoc(docs, x);
    }
  }

  lemma RootString(a: Path)
    requires ValidNames(a)
    ensures PathString(a) == "/" <==> a == []
  {
    ArrayRoundTrip(a);
    ArrayRoundTrip([]);
  }

  lemma GoneOne(docs: Docs, queue: map<Id, Kind>, u: set<Path>, c: Path)
    requires u <= docs.Keys && c in docs
    ensures (queue + Gone(docs, u))[docs[c].id := Removed] == queue + Gone(docs, u + {c})
  {
    assert IdsOf(docs, u + {c}) == IdsOf(docs, u) + {docs[c].id};
  }

  lemma GoneMore(docs: Docs, queue: map<Id, Kind>, u: set<Path>, rest: Docs, more: set<Path>)
    requires u <= docs.Keys && more <= rest.Keys <= docs.Keys && forall x | x in rest :: rest[x] == docs[x]
    ensures queue + Gone(docs, u) + Gone(rest, more) == queue + Gone(docs, u + more)
  {
    assert IdsOf(docs, u + more) == IdsOf(docs, u) + IdsOf(rest, more);
  }

  /** Taking out the child and then what is below it takes out its subtree. */
  lemma ChildTaken(docs: Docs, queue: map<Id, Kind>, a: Path, nodes: seq<Entry>, i: nat)
    requires i < |nodes| && a + [nodes[i].name] in docs - Under(docs, a, nodes, i)
    ensures var u, u', c := Under(docs, a, nodes, i), Under(docs, a, nodes, i + 1), a + [nodes[i].name];
            var rest := docs - u - {c};
            var more := Subtree(rest, c) - {c};
            && rest - more == docs - u'
            && (queue + Gone(docs, u))[docs[c].id := Removed] + Gone(rest, more) == queue + Gone(docs, u')
  {
    UnderNext(docs, a, nodes, i);
    var u, u', c := Under(docs, a, nodes, i), Under(docs, a, nodes, i + 1), a + [nodes[i].name];
    var rest := docs - u - {c};
    var more := Subtree(rest, c) - {c};
    assert Subtree(docs - u, c) == {c} + more;
    assert u + {c} + more == u';
    GoneOne(docs, queue, u, c);
    GoneMore(docs, queue, u + {c}, rest, more);
    RestWithout(docs, u, c, more);
  }

  lemma RestWithout(docs: Docs, u: set<Path>, c: Path, more: set<Path>)
    ensures docs - u - {c} - more == docs - (u + {c} + more)
  {}

  /** The remaining steps of create-with-parents lead from `s` to `s'`. */
  ghost predicate StepsDone(s: Server, s': Server, reply: Reply, a: Path, i: nat, dir: bool)
    requires i <= |a|
  {
    var e := CreateParentsFrom(s.docs, map[], s.nextId, a, i, dir);
    s' == Server(e.docs, s.queue + e.notices, e.nextId) && reply == e.reply
  }

  lemma StepsJoin(s: Server, s1: Server, s': Server, reply: Reply, a: Path, i: nat, dir: bool)
    requires 0 < i < |a| && a[..i] !in s.docs && a[..i - 1] in s.docs
    requires s1 == Server(AddChild(s.docs, a[..i - 1], s.nextId, a[..i], true),
                          s.queue + map[s.docs[a[..i - 1]].id := Updated], s.nextId + 1)
    requires StepsDone(s1, s', reply, a, i + 1, dir)
    ensures StepsDone(s, s', reply, a, i, dir)
  {
    CreateParentsUnfold(s.docs, s.nextId, a, i, dir);
    var e, notice := CreateParentsFrom(s1.docs, map[], s1.nextId, a, i + 1, dir), map[s.docs[a[..i - 1]].id := Updated];
    assert s.queue + notice + e.notices == s.queue + (notice + e.notices);
  }

  // ------------------------------------------------------------------ the server

  class AdvertServer {
    var docs: Docs
    var queue: map<Id, Kind>
    var nextId: Id

    ghost function State(): Server
      reads this
    {
      Server(docs, queue, nextId)
    }

    /** The start-up check: store a root if there is none. */
    constructor ()
      ensures State() == Initial()
    {
      docs := map[[] := Doc(1, "/", "", true, [], None, None)];
      queue := map[];
      nextId := 2;
    }

    method FindOne(path: string) returns (r: Option<Doc>)
      ensures r == Locate(docs, path)
    {
      r := Locate(docs, path);
    }

    method Get(id: Id) returns (r: Option<Doc>)
      requires Valid(State())
      ensures r == Find(docs, id)
    {
      if a :| a in docs && docs[a].id == id {
        FindStored(docs, nextId, a);
        return Some(docs[a]);
      }
      return None;
    }

    method Save(d: Doc)
      modifies this`docs
      ensures docs == old(docs)[GetPathArray(d.path) := d]
    {
      docs := docs[GetPathArray(d.path) := d];
    }

    method NewNode() returns (id: Id)
      modifies this`nextId
      ensures id == old(nextId) && nextId == old(nextId) + 1
    {
      id := nextId;
      nextId := nextId + 1;
    }

    /** Push the child on the parent's list, save the parent, announce it, save the child. */
    method AddNode(parent: Doc, ghost p: Path, a: Path, dir: bool) returns (id: Id)
      requires p in docs && docs[p] == parent && TrueToPath(p, parent) && ValidNames(a)
      modifies this
      ensures id == old(nextId) && nextId == old(nextId) + 1
      ensures docs == AddChild(old(docs), p, id, a, dir)
      ensures queue == old(queue)[parent.id := Updated]
    {
      id := NewNode();
      var node := Doc(id, PathString(a), Last(a), dir, [], None, None);
      var parent' := parent.(nodes := parent.nodes + [Entry(node.name, node.dir)]);
      ArrayRoundTrip(p);
      ArrayRoundTrip(a);
      Save(parent');
      Save(node);
      queue := queue[parent'.id := Updated];
    }

    method Create(path: string, dir: bool) returns (reply: Reply)
      requires Valid(State())
      modifies this
      ensures (State(), reply) == Apply(old(State()), Command.Create(path, dir))
    {
      var a := GetPathArray(path);
      LocateKey(docs, a);
      var node := FindOne(PathString(a));
      if node.Some? {
        reply := OkId(node.value.id);
      } else {
        LocateKey(docs, Front(a));
        var parent := FindOne(PathString(Front(a)));
        if parent.Some? {
          assert TrueToPath(Front(a), docs[Front(a)]);
          var id := AddNode(parent.value, Front(a), a, dir);
          reply := OkId(id);
        } else {
          reply := Error;
        }
      }
      assert queue == old(queue) + EffectOf(old(State()), Command.Create(path, dir)).notices;
    }

    /** The branch of a step that finds no document for its prefix `k`. */
    method AddPrefix(parent: Doc, k: Path, dir: bool) returns (id: Id)
      requires Valid(State()) && ValidNames(k) && k !in docs && Front(k) in docs && parent == docs[Front(k)]
      modifies this
      ensures State() == Server(AddChild(old(docs), Front(k), id, k, dir), old(queue) + map[parent.id := Updated], id + 1)
      ensures Valid(State()) && id == old(nextId)
    {
      assert TrueToPath(Front(k), docs[Front(k)]);
      AddChildValid(State(), k, dir);
      id := AddNode(parent, Front(k), k, dir);
      assert queue == old(queue) + map[parent.id := Updated];
    }

    /** The nested function `createParents`, called with 0 first. */
    method CreateParentsStep(a: Path, i: nat, dir: bool) returns (reply: Reply)
      requires Valid(State()) && ValidNames(a) && i <= |a|
      requires i > 0 ==> a[..i - 1] in docs
      modifies this
      ensures StepsDone(old(State()), State(), reply, a, i, dir)
      decreases |a| - i, 1
    {
      var k, p := a[..i], StepParent(a, i);
      LocateKey(docs, p);
      LocateKey(docs, k);
      var parent := FindOne(PathString(p));
      var node := FindOne(PathString(k));
      if node.Some? {
        assert queue + map[] == queue;
        if i == |a| {
          reply := OkId(node.value.id);
        } else {
          reply := CreateParentsStep(a, i + 1, dir);
        }
      } else {
        reply := CreateMissing(parent.value, a, i, dir);
      }
    }

    /** The branch of a step that finds no document for its prefix. */
    method CreateMissing(parent: Doc, a: Path, i: nat, dir: bool) returns (reply: Reply)
      requires Valid(State()) && ValidNames(a) && 0 < i <= |a|
      requires a[..i] !in docs && a[..i - 1] in docs && parent == docs[a[..i - 1]]
      modifies this
      ensures StepsDone(old(State()), State(), reply, a, i, dir)
      decreases |a| - i, 0
    {
      var k := a[..i];
      assert Front(k) == a[..i - 1];
      if i == |a| {
        var id := AddPrefix(parent, k, dir);
        reply := OkId(id);
      } else {
        ghost var s := State();
        var id := AddPrefix(parent, k, true);
        ghost var s1 := State();
        reply := CreateParentsStep(a, i + 1, dir);
        StepsJoin(s, s1, State(), reply, a, i, dir);
      }
    }

    method CreateParents(path: string, dir: bool) returns (reply: Reply)
      requires Valid(State())
      modifies this
      ensures (State(), reply) == Apply(old(State()), Command.CreateParents(path, dir))
    {
      reply := CreateParentsStep(GetPathArray(path), 0, dir);
    }

    /** The lookup of the loop in `recursiveRemove`: at the root it finds nothing. */
    method FindChild(node: Doc, ghost a: Path, n: string) returns (child: Option<Doc>)
      requires TrueToPath(a, node) && ValidName(n)
      ensures child == if a != [] && a + [n] in docs then Some(docs[a + [n]]) else None
    {
      StepString(a, n);
      LocateKey(docs, a + [n]);
      child := FindOne(node.path + "/" + n);
    }

    /** The nested function `recursiveRemove`: takes out every document below `node`, which itself
        is taken out by the caller.  At the root the strings looked up are no stored paths. */
    method RecursiveRemove(node: Doc, ghost a: Path)
      requires TrueToPath(a, node) && Sound(docs) && (forall e | e in node.nodes :: ValidName(e.name))
      requires Leads(docs, a, node.nodes) && LeadsBelow(docs, a)
      modifies this`docs, this`queue
      ensures docs == if a == [] then old(docs) else old(docs) - (Subtree(old(docs), a) - {a})
      ensures queue == if a == [] then old(queue) else old(queue) + Gone(old(docs), Subtree(old(docs), a) - {a})
      decreases |docs|
    {
      hide Leads, LeadsBelow, Sound, Under, Gone, Subtree, PathString;
      ghost var docs0, queue0 := docs, queue;
      UnderNone(docs0, queue0, a, node.nodes);
      UnderAll(docs0, a, node.nodes);
      var i := 0;
      while i < |node.nodes|
        invariant i <= |node.nodes|
        invariant a == [] ==> docs == docs0 && queue == queue0
        invariant a != [] ==> docs == docs0 - Under(docs0, a, node.nodes, i)
        invariant a != [] ==> queue == queue0 + Gone(docs0, Under(docs0, a, node.nodes, i))
      {
        ghost var c := a + [node.nodes[i].name];
        var child := FindChild(node, a, node.nodes[i].name);
        if child.Some? {
          ChildTaken(docs0, queue0, a, node.nodes, i);
          StepBelow(docs0, a, node.nodes, i, c);
          SoundAt(docs0, c);
          SoundWithin(docs0, docs - {c});
          RemoveDocument(child.value, c);
          RecursiveRemove(child.value, c);
        } else if a != [] {
          UnderAbsent(docs0, a, node.nodes, i);
        }
        i := i + 1;
      }
    }

    /** `node.remove`, with its callback. */
    method RemoveDocument(node: Doc, ghost a: Path)
      requires a in docs && docs[a] == node && TrueToPath(a, node)
      modifies this`docs, this`queue
      ensures docs == old(docs) - {a} && queue == old(queue)[node.id := Removed] && |docs| < |old(docs)|
    {
      ArrayRoundTrip(a);
      assert (docs - {a}).Keys == docs.Keys - {a};
      assert |docs.Keys - {a}| < |docs.Keys|;
      docs := docs - {GetPathArray(node.path)};
      queue := queue[node.id := Removed];
    }

    /** Take the removed node's entry out of its parent's list. */
    method Unlink(name: string, a: Path)
      requires ValidNames(a) && (a in docs ==> DistinctNames(docs[a].nodes) && TrueToPath(a, docs[a]))
      modifies this`docs, this`queue
      ensures a !in old(docs) ==> docs == old(docs) && queue == old(queue)
      ensures a in old(docs) ==>
                && docs == old(docs)[a := old(docs)[a].(nodes := Without(old(docs)[a].nodes, name))]
                && queue == old(queue)[old(docs)[a].id := Updated]
    {
      LocateKey(docs, a);
      var parent := FindOne(PathString(a));
      if parent.Some? {
        var nodes := SpliceOut(parent.value.nodes, name);
        ArrayRoundTrip(a);
        Save(parent.value.(nodes := nodes));
        queue := queue[parent.value.id := Updated];
      }
    }

    /** Take out a stored node other than the root: what is below it, itself, its parent's entry. */
    method RemoveNode(node: Doc, a: Path)
      requires Valid(State()) && a in docs && node == docs[a] && a != ROOT && Front(a) in docs - Subtree(docs, a)
      modifies this`docs, this`queue
      ensures var kept, p := old(docs) - Subtree(old(docs), a), old(docs)[Front(a)];
              && docs == kept[Front(a) := p.(nodes := Without(p.nodes, node.name))]
              && queue == (old(queue) + Gone(old(docs), Subtree(old(docs), a)))[p.id := Updated]
    {
      hide Leads, LeadsBelow, Sound, Subtree, Gone, PathString, DistinctNames;
      RemoveRelies(docs, a);
      RemoveTaken(State(), a);
      SoundAt(docs, a);
      RecursiveRemove(node, a);
      RemoveDocument(node, a);
      Unlink(node.name, Front(a));
    }

    method Remove(path: string) returns (reply: Reply)
      requires Valid(State())
      modifies this
      ensures (State(), reply) == Apply(old(State()), Command.Remove(path))
    {
      var a := GetPathArray(path);
      LocateKey(docs, a);
      var node := FindOne(PathString(a));
      assert queue + map[] == queue;
      if node.Some? {
        RootString(a);
        assert TrueToPath(a, docs[a]);
        if node.value.path != "/" {
          RemoveTaken(State(), a);
          RemoveIs(State(), a, path);
          RemoveNode(node.value, a);
        } else {
          RemoveRelies(docs, a);
          SoundAt(docs, a);
          RecursiveRemove(node.value, a);
        }
      }
      reply := OkRemoved;
    }

    method SetAttribute(path: string, key: string, val: Value) returns (reply: Reply)
      requires Valid(State())
      modifies this
      ensures (State(), reply) == Apply(old(State()), Command.SetAttribute(path, key, val))
    {
      var a := GetPathArray(path);
      LocateKey(docs, a);
      var node := FindOne(PathString(a));
      assert queue + map[] == queue;
      reply := NoReply;
      if node.Some? {
        var attributes := if node.value.attributes == None then map[] else node.value.attributes.value;
        attributes := attributes[key := val];
        reply := SaveAndAnnounce(node.value.(attributes := Some(attributes)), a);
      }
    }

    method RemoveAttribute(path: string, key: string) returns (reply: Reply)
      requires Valid(State())
      modifies this
      ensures (State(), reply) == Apply(old(State()), Command.RemoveAttribute(path, key))
    {
      var a := GetPathArray(path);
      LocateKey(docs, a);
      var node := FindOne(PathString(a));
      assert queue + map[] == queue;
      reply := NoReply;
      if node.Some? {
        if node.value.attributes == None {
          reply := Crash;
        } else {
          reply := SaveAndAnnounce(node.value.(attributes := Some(node.value.attributes.value - {key})), a);
        }
      }
    }

    method SetString(path: string, text: string) returns (reply: Reply)
      requires Valid(State())
      modifies this
      ensures (State(), reply) == Apply(old(State()), Command.SetString(path, text))
    {
      var a := GetPathArray(path);
      LocateKey(docs, a);
      var node := FindOne(PathString(a));
      assert queue + map[] == queue;
      reply := NoReply;
      if node.Some? {
        reply := SaveAndAnnounce(node.value.(data := Some(text)), a);
      }
    }

    method RemoveString(path: string) returns (reply: Reply)
      requires Valid(State())
      modifies this
      ensures (State(), reply) == Apply(old(State()), Command.RemoveString(path))
    {
      var a := GetPathArray(path);
      LocateKey(docs, a);
      var node := FindOne(PathString(a));
      assert queue + map[] == queue;
      reply := NoReply;
      if node.Some? {
        reply := SaveAndAnnounce(node.value.(data := Some("")), a);
      }
    }

    method SaveAndAnnounce(d: Doc, ghost a: Path) returns (reply: Reply)
      requires WellFormed(docs) && a in docs && d.path == docs[a].path
      modifies this`docs, this`queue
      ensures docs == old(docs)[a := d] && queue == old(queue) + map[d.id := Updated]
      ensures reply == OkId(d.id)
    {
      assert TrueToPath(a, docs[a]);
      ArrayRoundTrip(a);
      Save(d);
      queue := queue[d.id := Updated];
      assert queue == old(queue) + map[d.id := Updated];
      reply := OkId(d.id);
    }

    method Exists(path: string) returns (reply: Reply)
      ensures (State(), reply) == Apply(old(State()), Command.Exists(path))
    {
      var a := GetPathArray(path);
      LocateKey(docs, a);
      assert queue + map[] == queue;
      var node := FindOne(PathString(a));
      reply := if node.Some? then True else False;
    }

    method Open(path: string) returns (reply: Reply)
      ensures (State(), reply) == Apply(old(State()), Command.Open(path))
    {
      var a := GetPathArray(path);
      LocateKey(docs, a);
      assert queue + map[] == queue;
      var node := FindOne(PathString(a));
      reply := if node.Some? then OkId(node.value.id) else Error;
    }

    /** The handler of a message: whatever the command, the server stays valid. */
    method Handle(cmd: Command) returns (reply: Reply)
      requires Valid(State())
      modifies this
      ensures (State(), reply) == Apply(old(State()), cmd) && Valid(State())
    {
      ApplyKeepsValid(State(), cmd);
      match cmd
      case Exists(path) => reply := Exists(path);
      case Open(path) => reply := Open(path);
      case Create(path, dir) => reply := Create(path, dir);
      case CreateParents(path, dir) => reply := CreateParents(path, dir);
      case Remove(path) => reply := Remove(path);
      case SetAttribute(path, key, val) => reply := SetAttribute(path, key, val);
      case RemoveAttribute(path, key) => reply := RemoveAttribute(path, key);
      case SetString(path, text) => reply := SetString(path, text);
      case RemoveString(path) => reply := RemoveString(path);
    }

    /** The timer's callback: publish what is queued, then start an empty queue. */
    method Flush() returns (batch: map<Id, Kind>)
      modifies this`queue
      ensures batch == old(queue) && queue == map[]
    {
      batch := queue;
      queue := map[];
    }
  }

  lemma RemoveRelies(docs: Docs, a: Path)
    requires WellFormed(docs) && a in docs
    ensures TrueToPath(a, docs[a])
    ensures Leads(docs, a, docs[a].nodes) && LeadsBelow(docs, a) && Sound(docs)
  {
    assert TrueToPath(a, docs[a]);
    WellFormedLeads(docs, a);
    forall y | y in docs && a < y ensures Leads(docs, y, docs[y].nodes) {
      WellFormedLeads(docs, y);
    }
    forall x ensures SoundDoc(docs, x) {
      assert x in docs ==> Fits(docs, x) && TrueToPath(x, docs[x]);
    }
  }

  lemma RemoveTaken(s: Server, a: Path)
    requires Valid(s) && a in s.docs && a != ROOT
    ensures var below := Subtree(s.docs, a) - {a};
            && s.docs - below - {a} == s.docs - Subtree(s.docs, a)
            && (s.queue + Gone(s.docs, below))[s.docs[a].id := Removed] == s.queue + Gone(s.docs, Subtree(s.docs, a))
            && s.docs[a].name == Last(a)
    ensures Front(a) in s.docs - Subtree(s.docs, a)
    ensures DistinctNames(s.docs[Front(a)].nodes) && TrueToPath(Front(a), s.docs[Front(a)])
  {
    var below := Subtree(s.docs, a) - {a};
    assert Fits(s.docs, a);
    RemovePrunes(s, a);
    assert Fits(s.docs, Front(a)) && TrueToPath(Front(a), s.docs[Front(a)]);
    assert below + {a} == Subtree(s.docs, a);
    GoneOne(s.docs, s.queue, below, a);
  }

  lemma RemoveIs(s: Server, a: Path, path: string)
    requires a in s.docs && a != ROOT && a == GetPathArray(path)
    requires Front(a) in s.docs - Subtree(s.docs, a)
    ensures var kept, p := s.docs - Subtree(s.docs, a), s.docs[Front(a)];
            Apply(s, Command.Remove(path)) ==
              (Server(kept[Front(a) := p.(nodes := Without(p.nodes, s.docs[a].name))],
                      (s.queue + Gone(s.docs, Subtree(s.docs, a)))[p.id := Updated], s.nextId), OkRemoved)
  {
    var kept, p, gone := s.docs - Subtree(s.docs, a), s.docs[Front(a)], Gone(s.docs, Subtree(s.docs, a));
    var e := RemoveEffect(s, a);
    assert EffectOf(s, Command.Remove(path)) == e;
    assert e.docs == kept[Front(a) := p.(nodes := Without(p.nodes, s.docs[a].name))];
    assert e.notices == gone[p.id := Updated];
    assert (s.queue + gone)[p.id := Updated] == s.queue + gone[p.id := Updated];
  }
}
