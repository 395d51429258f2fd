/** Laws between the server's commands: what one undoes, and where two agree. */
module AdvertLaws {
  import opened Options
  import opened Paths
  import opened AdvertStore
  import opened AdvertCommands

  lemma {:induction false} StepsSkip(docs: Docs, nextId: Id, a: Path, i: nat, dir: bool)
    requires WellFormed(docs) && i <= |a| && (a in docs || Front(a) in docs)
    ensures CreateParentsFrom(docs, map[], nextId, a, i, dir) == CreateEffect(docs, nextId, a, dir)
    decreases |a| - i
  {
    if i < |a| {
      PrefixStored(docs, a[..i], if a in docs then a else Front(a));
      StepsSkip(docs, nextId, a, i + 1, dir);
    } else {
      assert a[..|a|] == a;
    }
  }

  /** Where the parent is stored, creating with parents is creating. */
  lemma CreateAgrees(s: Server, path: string, dir: bool)
    requires Valid(s) && (GetPathArray(path) in s.docs || Front(GetPathArray(path)) in s.docs)
    ensures EffectOf(s, CreateParents(path, dir)) == EffectOf(s, Create(path, dir))
  {
    StepsSkip(s.docs, s.nextId, GetPathArray(path), 0, dir);
  }

  /** Creating what is there, either way, changes nothing and answers with the id that is there. */
  lemma CreateTwice(s: Server, path: string, dir: bool)
    requires Valid(s) && Apply(s, Create(path, dir)).1.OkId?
    ensures var (s1, reply) := Apply(s, Create(path, dir));
            && Apply(s1, Create(path, !dir)) == (s1, reply)
            && Apply(s1, CreateParents(path, !dir)) == (s1, reply)
            && Apply(s1, Open(path)) == (s1, reply)
  {
    hide Valid, GetPathArray, AddChild;
    var (s1, reply) := Apply(s, Create(path, dir));
    ApplyKeepsValid(s, Create(path, dir));
    CreateStores(s, path, dir);
    CreateAgrees(s1, path, !dir);
    assert s1.queue + map[] == s1.queue;
  }

  lemma CreateStores(s: Server, path: string, dir: bool)
    requires Apply(s, Create(path, dir)).1.OkId?
    ensures var (s1, reply) := Apply(s, Create(path, dir));
            GetPathArray(path) in s1.docs && reply == OkId(s1.docs[GetPathArray(path)].id)
  {}

  /** Removing what was just created restores every document. */
  lemma RemoveUndoesCreate(s: Server, path: string, dir: bool)
    requires Valid(s) && GetPathArray(path) !in s.docs && Front(GetPathArray(path)) in s.docs
    ensures Apply(Apply(s, Create(path, dir)).0, Remove(path)).0.docs == s.docs
  {
    hide Valid, DistinctNames;
    var a, s1 := GetPathArray(path), Apply(s, Create(path, dir)).0;
    var p, gone := Front(a), Subtree(s1.docs, a);
    forall x | x in s.docs ensures !(a <= x) {
      NothingBelow(s, a, x);
    }
    assert a in gone && forall x | x in gone :: x == a;
    assert gone == {a};
    NoEntryYet(s, a);
    WithoutSnoc(s.docs[p].nodes, Entry(Last(a), dir));
    assert s1.docs[p].(nodes := s.docs[p].nodes) == s.docs[p];
    var after := RemoveEffect(s1, a).docs;
    assert after.Keys == s.docs.Keys;
  }

  lemma NothingBelow(s: Server, a: Path, x: Path)
    requires Valid(s) && a !in s.docs && x in s.docs
    ensures !(a <= x)
  {
    if a <= x {
      PrefixStored(s.docs, a, x);
    }
  }

  lemma NoEntryYet(s: Server, a: Path)
    requires Valid(s) && a !in s.docs && a != [] && Front(a) in s.docs
    ensures forall i | 0 <= i < |s.docs[Front(a)].nodes| :: s.docs[Front(a)].nodes[i].name != Last(a)
  {
    assert Fits(s.docs, Front(a));
    FrontLast(a);
    assert forall i | 0 <= i < |s.docs[Front(a)].nodes| :: s.docs[Front(a)].nodes[i] in s.docs[Front(a)].nodes;
  }

  lemma {:induction false} WithoutSnoc(nodes: seq<Entry>, e: Entry)
    requires forall i | 0 <= i < |nodes| :: nodes[i].name != e.name
    ensures Without(nodes + [e], e.name) == nodes
  {
    if nodes == [] {
      assert nodes + [e] == [e];
    } else {
      assert (nodes + [e])[1..] == nodes[1..] + [e];
      WithoutSnoc(nodes[1..], e);
    }
  }

  // ------------------------------------------------------------------ attributes and strings

  /** What a reader of the document finds under a key. */
  function AttributeIn(d: Doc, key: string): Option<Value> {
    if d.attributes.Some? && key in d.attributes.value then Some(d.attributes.value[key]) else None
  }

  /** `after` differs from `before` only in the attributes and data of the document at `a`, and there
      in the attribute `key`, which is now `val`. */
  ghost predicate OneAttribute(before: Docs, after: Docs, a: Path, key: string, val: Option<Value>) {
    && after.Keys == before.Keys
    && (forall x | x in before && x != a :: after[x] == before[x])
    && (a in before ==>
          && after[a].(attributes := before[a].attributes) == before[a]
          && forall k :: AttributeIn(after[a], k) == if k == key then val else AttributeIn(before[a], k))
  }

  /** Setting an attribute changes that attribute of that document; removing one changes the same. */
  lemma AttributeCommands(s: Server, path: string, key: string, val: Value)
    requires GetPathArray(path) in s.docs
    ensures var a := GetPathArray(path);
            && OneAttribute(s.docs, Apply(s, SetAttribute(path, key, val)).0.docs, a, key, Some(val))
            && (s.docs[a].attributes.Some? ==>
                  OneAttribute(s.docs, Apply(s, RemoveAttribute(path, key)).0.docs, a, key, None))
            && (Apply(s, RemoveAttribute(path, key)).1.Crash? <==> s.docs[a].attributes.None?)
  {}

  /** A removed attribute is gone, whatever was set before, and the others are as they were. */
  lemma RemoveUndoesSet(s: Server, path: string, key: string, val: Value)
    requires GetPathArray(path) in s.docs
    ensures var s2 := Apply(Apply(s, SetAttribute(path, key, val)).0, RemoveAttribute(path, key)).0;
            OneAttribute(s.docs, s2.docs, GetPathArray(path), key, None)
  {
    AttributeCommands(s, path, key, val);
    AttributeCommands(Apply(s, SetAttribute(path, key, val)).0, path, key, val);
  }

  /** Setting and removing the string change nothing else; a removed string is the empty string. */
  lemma StringCommands(s: Server, path: string, text: string, x: Path)
    requires GetPathArray(path) in s.docs && x in s.docs
    ensures var set_, removed := Apply(s, SetString(path, text)).0.docs, Apply(s, RemoveString(path)).0.docs;
            && set_.Keys == removed.Keys == s.docs.Keys
            && set_[x].(data := s.docs[x].data) == removed[x].(data := s.docs[x].data) == s.docs[x]
            && set_[x].data == (if x == GetPathArray(path) then Some(text) else s.docs[x].data)
            && removed[x].data == (if x == GetPathArray(path) then Some("") else s.docs[x].data)
  {}
}
