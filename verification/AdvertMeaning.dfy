/** What each command does to every part of the server and what it answers, document by document. */
module AdvertMeaning {
  import opened Options
  import opened Paths
  import opened AdvertStore
  import opened AdvertCommands

  /** The collection at start-up. */
  lemma InitialMeans()
    ensures Initial().docs == map[[] := Doc(1, "/", "", true, [], None, None)] && Initial().queue == map[]
    ensures Initial().nextId == 2
  {}

  /** Asking changes nothing. */
  lemma AskMeans(s: Server, path: string)
    ensures Apply(s, Exists(path)) == (s, if GetPathArray(path) in s.docs then True else False)
    ensures Apply(s, Open(path)) ==
            (s, if GetPathArray(path) in s.docs then OkId(s.docs[GetPathArray(path)].id) else Error)
  {
    assert s.queue + map[] == s.queue;
  }

  /** One document is added: without attributes and data, last in its parent's list, the parent queued. */
  ghost predicate OneAdded(s: Server, s': Server, a: Path, dir: bool)
    requires a !in s.docs && Front(a) in s.docs
  {
    var p := Front(a);
    && s'.docs.Keys == s.docs.Keys + {a}
    && s'.docs[a] == Doc(s.nextId, PathString(a), Last(a), dir, [], None, None)
    && s'.docs[p] == s.docs[p].(nodes := s.docs[p].nodes + [Entry(Last(a), dir)])
    && (forall x | x in s.docs && x != p :: s'.docs[x] == s.docs[x])
    && s'.queue == s.queue[s.docs[p].id := Updated] && s'.nextId == s.nextId + 1
  }

  lemma CreateMeans(s: Server, path: string, dir: bool)
    requires Valid(s)
    ensures var a, (s', reply) := GetPathArray(path), Apply(s, Create(path, dir));
            if a in s.docs then s' == s && reply == OkId(s.docs[a].id)
            else if Front(a) in s.docs then OneAdded(s, s', a, dir) && reply == OkId(s.nextId)
            else s' == s && reply == Error
  {
    hide WellFormed, UniqueIds, QueueAgrees, GetPathArray;
    var a := GetPathArray(path);
    assert s.queue + map[] == s.queue;
    assert a == [] ==> Front(a) == a;
    if a !in s.docs && Front(a) in s.docs {
      assert s.queue + map[s.docs[Front(a)].id := Updated] == s.queue[s.docs[Front(a)].id := Updated];
    }
  }

  // ------------------------------------------------------------------ create with parents

  /** The length of the first prefix from `i` on that is not stored. */
  function FirstMissing(docs: Docs, a: Path, i: nat): nat
    requires i <= |a| + 1
    decreases |a| + 1 - i
  {
    if i <= |a| && a[..i] in docs then FirstMissing(docs, a, i + 1) else i
  }

  ghost predicate NoneFrom(docs: Docs, a: Path, i: nat) {
    forall j | i <= j <= |a| :: a[..j] !in docs
  }

  /** With `m` the first missing length: numbers are given out in order, and what is queued is the
      parent of every new document. */
  ghost predicate Numbered(docs: Docs, docs': Docs, notices: map<Id, Kind>, notices': map<Id, Kind>, nextId: Id,
                           nextId': Id, a: Path, m: nat)
    requires 0 < m <= |a| + 1 && a[..m - 1] in docs
  {
    && nextId' == nextId + (|a| + 1 - m)
    && (forall j | m <= j <= |a| :: a[..j] in docs' && docs'[a[..j]].id == nextId + (j - m))
    && (forall id :: id in notices' <==> id in notices || Queued(docs, nextId, a, m, id))
    && (forall id | id in notices' :: notices'[id] == if Queued(docs, nextId, a, m, id) then Updated else notices[id])
  }

  ghost predicate Queued(docs: Docs, nextId: Id, a: Path, m: nat, id: Id)
    requires 0 < m <= |a| + 1 && a[..m - 1] in docs
  {
    m <= |a| && (id == docs[a[..m - 1]].id || nextId <= id < nextId + (|a| - m))
  }

  lemma {:induction false} MissingAll(docs: Docs, notices: map<Id, Kind>, nextId: Id, a: Path, i: nat, dir: bool)
    requires ROOT in docs && 0 < i <= |a| && a[..i - 1] in docs && NoneFrom(docs, a, i)
    ensures var e := CreateParentsFrom(docs, notices, nextId, a, i, dir);
            Numbered(docs, e.docs, notices, e.notices, nextId, e.nextId, a, i)
    decreases |a| - i
  {
    var k, p := a[..i], a[..i - 1];
    var e := CreateParentsFrom(docs, notices, nextId, a, i, dir);
    if i < |a| {
      var docs', notices' := AddChild(docs, p, nextId, k, true), notices[docs[p].id := Updated];
      assert forall j | i < j <= |a| :: a[..j] != k && a[..j] != p;
      MissingAll(docs', notices', nextId + 1, a, i + 1, dir);
      CreateParentsCreates(docs', notices', nextId + 1, a, i + 1, dir);
      assert KeptDoc(docs', e.docs, a, i + 1, dir, k);
      forall id ensures Queued(docs, nextId, a, i, id) <==> id == docs[p].id || Queued(docs', nextId + 1, a, i + 1, id) {
        assert docs'[k].id == nextId;
      }
    }
  }

  /** The steps that find their prefix do nothing. */
  lemma {:induction false} SkipStored(docs: Docs, nextId: Id, a: Path, i: nat, dir: bool)
    requires ROOT in docs && i <= |a| && (i > 0 ==> a[..i - 1] in docs)
    ensures var m := FirstMissing(docs, a, i);
            && i <= m <= |a| + 1 && (m > 0 ==> a[..m - 1] in docs) && (m <= |a| ==> a[..m] !in docs)
            && CreateParentsFrom(docs, map[], nextId, a, i, dir) ==
               if m <= |a| then CreateParentsFrom(docs, map[], nextId, a, m, dir)
               else Effect(docs, map[], nextId, OkId(docs[a[..|a|]].id))
    decreases |a| - i
  {
    if a[..i] in docs && i < |a| {
      SkipStored(docs, nextId, a, i + 1, dir);
    }
  }

  lemma CreateParentsMeans(s: Server, path: string, dir: bool)
    requires Valid(s)
    ensures var a, (s', reply) := GetPathArray(path), Apply(s, CreateParents(path, dir));
            var m := FirstMissing(s.docs, a, 0);
            && 0 < m <= |a| + 1 && a[..m - 1] in s.docs
            && PrefixesCreated(s.docs, s'.docs, a, 0, dir) && a in s'.docs && reply == OkId(s'.docs[a].id)
            && Numbered(s.docs, s'.docs, s.queue, s'.queue, s.nextId, s'.nextId, a, m)
            && (m == |a| + 1 ==> s' == s)
  {
    hide UniqueIds, QueueAgrees, GetPathArray, PrefixesCreated;
    var a := GetPathArray(path);
    SkipStored(s.docs, s.nextId, a, 0, dir);
    var m := FirstMissing(s.docs, a, 0);
    RootFound(s.docs, a);
    CreateParentsExactly(s, path, dir);
    if m <= |a| {
      NoneStored(s.docs, a, m);
      MissingAll(s.docs, map[], s.nextId, a, m, dir);
    } else {
      assert s.queue + map[] == s.queue;
    }
  }

  lemma RootFound(docs: Docs, a: Path)
    requires ROOT in docs
    ensures FirstMissing(docs, a, 0) > 0
  {
    assert a[..0] == ROOT;
    MissingFrom(docs, a, 1);
  }

  lemma {:induction false} MissingFrom(docs: Docs, a: Path, i: nat)
    requires i <= |a| + 1
    ensures i <= FirstMissing(docs, a, i) <= |a| + 1
    decreases |a| + 1 - i
  {
    if i <= |a| && a[..i] in docs {
      MissingFrom(docs, a, i + 1);
    }
  }

  lemma NoneStored(docs: Docs, a: Path, i: nat)
    requires WellFormed(docs) && i <= |a| && a[..i] !in docs
    ensures NoneFrom(docs, a, i)
  {
    forall j | i <= j <= |a| ensures a[..j] !in docs {
      assert a[..i] <= a[..j];
      if a[..j] in docs {
        PrefixStored(docs, a[..i], a[..j]);
      }
    }
  }

  // ------------------------------------------------------------------ remove, attributes, the string

  /** `id` is that of a document at `a` or below. */
  ghost predicate IdBelow(docs: Docs, a: Path, id: Id) {
    exists x :: x in docs && a <= x && docs[x].id == id
  }

  /** The queue after a remove: "removed" for all that went, "updated" for the parent, the rest as it was. */
  ghost predicate QueueAfterRemove(s: Server, queue: map<Id, Kind>, a: Path, id: Id)
    requires Front(a) in s.docs
  {
    if IdBelow(s.docs, a, id) then id in queue && queue[id] == Removed
    else if id == s.docs[Front(a)].id then id in queue && queue[id] == Updated
    else (id in queue <==> id in s.queue) && (id in queue ==> queue[id] == s.queue[id])
  }

  lemma IdsBelow(docs: Docs, a: Path, id: Id)
    ensures id in IdsOf(docs, Subtree(docs, a)) <==> IdBelow(docs, a, id)
  {
    if IdBelow(docs, a, id) {
      var x :| x in docs && a <= x && docs[x].id == id;
      assert x in Subtree(docs, a);
    }
  }

  lemma ParentNotBelow(s: Server, a: Path)
    requires Valid(s) && a in s.docs && a != ROOT && Front(a) in s.docs
    ensures !IdBelow(s.docs, a, s.docs[Front(a)].id)
  {
    hide WellFormed, QueueAgrees;
    forall x | x in s.docs && a <= x ensures s.docs[x].id != s.docs[Front(a)].id {
      assert x != Front(a);
    }
  }

  lemma RemoveQueues(s: Server, a: Path, id: Id)
    requires Valid(s) && a in s.docs && a != ROOT && Front(a) in s.docs
    ensures QueueAfterRemove(s, s.queue + RemoveEffect(s, a).notices, a, id)
  {
    hide WellFormed, QueueAgrees, UniqueIds, Without, IdsOf, IdBelow;
    IdsBelow(s.docs, a, id);
    ParentNotBelow(s, a);
    var gone := IdsOf(s.docs, Subtree(s.docs, a));
    assert Front(a) in s.docs - Subtree(s.docs, a);
    assert RemoveEffect(s, a).notices == (map i | i in gone :: Removed)[s.docs[Front(a)].id := Updated];
  }

  lemma RemoveMeans(s: Server, path: string)
    requires Valid(s)
    ensures var a, (s', reply) := GetPathArray(path), Apply(s, Remove(path));
            && reply == OkRemoved && s'.nextId == s.nextId
            && if a == ROOT || a !in s.docs then s' == s
               else Front(a) in s.docs && SubtreeRemoved(s, s', a) && forall id :: QueueAfterRemove(s, s'.queue, a, id)
  {
    hide GetPathArray, SubtreeRemoved, QueueAfterRemove, Subtree, IdsOf, Without, WellFormed, UniqueIds, QueueAgrees;
    var a := GetPathArray(path);
    RemoveExactly(s, path);
    if a != ROOT && a in s.docs {
      forall id ensures QueueAfterRemove(s, Apply(s, Remove(path)).0.queue, a, id) {
        RemoveQueues(s, a, id);
      }
    }
  }

  /** One document is changed, and queued. */
  ghost predicate OneChanged(s: Server, s': Server, a: Path, d: Doc)
    requires a in s.docs
  {
    && s'.docs.Keys == s.docs.Keys && s'.docs[a] == d && (forall x | x in s.docs && x != a :: s'.docs[x] == s.docs[x])
    && s'.queue == s.queue[s.docs[a].id := Updated] && s'.nextId == s.nextId
  }

  lemma ChangeIs(s: Server, a: Path, d: Doc)
    requires a in s.docs && d.id == s.docs[a].id
    ensures var e := Change(s, a, d); OneChanged(s, Server(e.docs, s.queue + e.notices, e.nextId), a, d)
  {
    assert s.queue + map[d.id := Updated] == s.queue[d.id := Updated];
  }

  lemma SilentIs(s: Server, reply: Reply)
    ensures var e := Silent(s, reply); Server(e.docs, s.queue + e.notices, e.nextId) == s && e.reply == reply
  {
    assert s.queue + map[] == s.queue;
  }

  /** The attribute commands are not answered on a missing path; otherwise they change the attributes
      of one document and answer its id, unless there is nothing to delete from. */
  lemma AttributesMean(s: Server, path: string, key: string, val: Value)
    ensures var a := GetPathArray(path);
            var (s1, r1) := Apply(s, SetAttribute(path, key, val));
            var (s2, r2) := Apply(s, RemoveAttribute(path, key));
            if a !in s.docs then s1 == s2 == s && r1 == r2 == NoReply
            else
              var d := s.docs[a];
              var before := if d.attributes.Some? then d.attributes.value else map[];
              && r1 == OkId(d.id) && OneChanged(s, s1, a, d.(attributes := Some(before[key := val])))
              && if d.attributes.None? then s2 == s && r2 == Crash
                 else r2 == OkId(d.id) && OneChanged(s, s2, a, d.(attributes := Some(before - {key})))
  {
    hide GetPathArray, OneChanged;
    var a := GetPathArray(path);
    SilentIs(s, NoReply);
    SilentIs(s, Crash);
    if a in s.docs {
      var before := if s.docs[a].attributes.Some? then s.docs[a].attributes.value else map[];
      ChangeIs(s, a, s.docs[a].(attributes := Some(before[key := val])));
      ChangeIs(s, a, s.docs[a].(attributes := Some(before - {key})));
    }
  }

  /** So do the string commands with the data; a removed string is the empty string. */
  lemma StringsMean(s: Server, path: string, text: string)
    ensures var a := GetPathArray(path);
            var (s1, r1) := Apply(s, SetString(path, text));
            var (s2, r2) := Apply(s, RemoveString(path));
            if a !in s.docs then s1 == s2 == s && r1 == r2 == NoReply
            else
              && r1 == r2 == OkId(s.docs[a].id)
              && OneChanged(s, s1, a, s.docs[a].(data := Some(text)))
              && OneChanged(s, s2, a, s.docs[a].(data := Some("")))
  {
    hide GetPathArray, OneChanged;
    var a := GetPathArray(path);
    SilentIs(s, NoReply);
    if a in s.docs {
      ChangeIs(s, a, s.docs[a].(data := Some(text)));
      ChangeIs(s, a, s.docs[a].(data := Some("")));
    }
  }
}
