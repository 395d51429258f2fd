/** What the advert server's commands keep and what they change. */
module AdvertCommands {
  import opened Paths
  import opened Options
  import opened AdvertStore

  /** Going from `docs` to `docs'`, every document that changes or goes has a notice, and documents
      that appear carry new ids. */
  ghost predicate Tracked(docs: Docs, nextId: Id, docs': Docs, notices: map<Id, Kind>, nextId': Id) {
    && nextId <= nextId'
    && (forall a | a in docs && a in docs' ::
          docs'[a].id == docs[a].id && (docs'[a] == docs[a] || docs[a].id in notices))
    && (forall a | a in docs && a !in docs' :: docs[a].id in notices)
    && (forall a | a in docs' && a !in docs :: nextId <= docs'[a].id)
  }

  /** A notice says "removed" exactly when its id is gone. */
  ghost predicate Truthful(docs': Docs, notices: map<Id, Kind>, nextId': Id) {
    forall id | id in notices :: 0 < id < nextId' && (notices[id] == Removed <==> !Live(docs', id))
  }

  /** Only ids that were alive, or are new, get a notice: "removed" is final for an id. */
  ghost predicate Timely(docs: Docs, nextId: Id, notices: map<Id, Kind>) {
    forall id | id in notices :: Live(docs, id) || nextId <= id
  }

  ghost predicate Announced(docs: Docs, nextId: Id, e: Effect) {
    && Tracked(docs, nextId, e.docs, e.notices, e.nextId)
    && Truthful(e.docs, e.notices, e.nextId)
    && Timely(docs, nextId, e.notices)
  }

  lemma SameIdsLive(docs: Docs, docs': Docs, id: Id)
    requires docs'.Keys == docs.Keys && forall x | x in docs :: docs'[x].id == docs[x].id
    ensures Live(docs', id) <==> Live(docs, id)
  {
    if Live(docs, id) {
      var x :| x in docs && docs[x].id == id;
      assert x in docs' && docs'[x].id == id;
    }
    if Live(docs', id) {
      var x :| x in docs' && docs'[x].id == id;
      assert x in docs && docs[x].id == id;
    }
  }

  lemma ChangeFits(docs: Docs, a: Path, d: Doc, x: Path)
    requires a in docs && d.path == docs[a].path && d.name == docs[a].name
    requires d.dir == docs[a].dir && d.nodes == docs[a].nodes
    requires x in docs && Fits(docs, x) && TrueToPath(x, docs[x])
    ensures Fits(docs[a := d], x) && TrueToPath(x, docs[a := d][x])
  {}

  lemma ChangeAnnounced(s: Server, a: Path, d: Doc)
    requires Valid(s) && a in s.docs && d.id == s.docs[a].id && d.path == s.docs[a].path
    requires d.name == s.docs[a].name && d.dir == s.docs[a].dir && d.nodes == s.docs[a].nodes
    ensures WellFormed(Change(s, a, d).docs) && UniqueIds(Change(s, a, d).docs, s.nextId)
    ensures Announced(s.docs, s.nextId, Change(s, a, d))
  {
    hide Fits, TrueToPath;
    var docs' := s.docs[a := d];
    forall x | x in docs' ensures TrueToPath(x, docs'[x]) && Fits(docs', x) {
      assert Fits(s.docs, x) && TrueToPath(x, s.docs[x]);
      ChangeFits(s.docs, a, d, x);
    }
    SameIdsLive(s.docs, docs', d.id);
  }

  lemma AddChildLive(docs: Docs, nextId: Id, p: Path, a: Path, dir: bool, id: Id)
    requires p in docs && a !in docs
    ensures Live(AddChild(docs, p, nextId, a, dir), id) <==> Live(docs, id) || id == nextId
  {
    var docs' := AddChild(docs, p, nextId, a, dir);
    if Live(docs, id) {
      var x :| x in docs && docs[x].id == id;
      assert x in docs' && docs'[x].id == id;
    }
    if Live(docs', id) {
      var x :| x in docs' && docs'[x].id == id;
      assert x == a || (x in docs && docs[x].id == id);
    }
    assert docs'[a].id == nextId;
  }

  lemma AddChildTracked(docs0: Docs, next0: Id, notices: map<Id, Kind>, docs: Docs, nextId: Id,
                        p: Path, a: Path, dir: bool)
    requires p in docs && a !in docs && a !in docs0
    requires Tracked(docs0, next0, docs, notices, nextId)
    ensures Tracked(docs0, next0, AddChild(docs, p, nextId, a, dir), notices[docs[p].id := Updated], nextId + 1)
  {}

  lemma AddChildTimely(docs0: Docs, next0: Id, notices: map<Id, Kind>, docs: Docs, nextId: Id, p: Path)
    requires p in docs && Tracked(docs0, next0, docs, notices, nextId) && Timely(docs0, next0, notices)
    ensures Timely(docs0, next0, notices[docs[p].id := Updated])
  {
    assert p in docs0 ==> docs0[p].id == docs[p].id;
  }

  lemma AddChildTruthful(docs: Docs, notices: map<Id, Kind>, nextId: Id, p: Path, a: Path, dir: bool)
    requires UniqueIds(docs, nextId) && p in docs && a !in docs && Truthful(docs, notices, nextId)
    ensures Truthful(AddChild(docs, p, nextId, a, dir), notices[docs[p].id := Updated], nextId + 1)
  {
    var docs', notices' := AddChild(docs, p, nextId, a, dir), notices[docs[p].id := Updated];
    forall id | id in notices'
      ensures 0 < id < nextId + 1 && (notices'[id] == Removed <==> !Live(docs', id))
    {
      AddChildLive(docs, nextId, p, a, dir, id);
      assert id == docs[p].id ==> Live(docs, id);
    }
  }

  lemma AddChildAnnounced(docs0: Docs, next0: Id, notices: map<Id, Kind>, docs: Docs, nextId: Id, a: Path, dir: bool,
                          reply: Reply)
    requires WellFormed(docs) && UniqueIds(docs, nextId) && 0 < nextId && ValidNames(a)
    requires a !in docs && a !in docs0 && Front(a) in docs
    requires Announced(docs0, next0, Effect(docs, notices, nextId, Error))
    ensures var e := Effect(AddChild(docs, Front(a), nextId, a, dir), notices[docs[Front(a)].id := Updated],
                            nextId + 1, reply);
            WellFormed(e.docs) && UniqueIds(e.docs, e.nextId) && Announced(docs0, next0, e)
  {
    AddChildWellFormed(docs, Front(a), nextId, a, dir);
    AddChildIds(docs, Front(a), nextId, a, dir);
    AddChildTracked(docs0, next0, notices, docs, nextId, Front(a), a, dir);
    AddChildTimely(docs0, next0, notices, docs, nextId, Front(a));
    AddChildTruthful(docs, notices, nextId, Front(a), a, dir);
  }

  lemma CreateAnnounced(docs: Docs, nextId: Id, a: Path, dir: bool)
    requires WellFormed(docs) && UniqueIds(docs, nextId) && 0 < nextId && ValidNames(a)
    ensures var e := CreateEffect(docs, nextId, a, dir);
            WellFormed(e.docs) && UniqueIds(e.docs, e.nextId) && Announced(docs, nextId, e)
  {
    if a !in docs && Front(a) in docs {
      AddChildAnnounced(docs, nextId, map[], docs, nextId, a, dir, OkId(nextId));
    }
  }

  lemma RemoveAnnounced(s: Server, a: Path)
    requires Valid(s)
    ensures var e := RemoveEffect(s, a);
            WellFormed(e.docs) && UniqueIds(e.docs, e.nextId) && Announced(s.docs, s.nextId, e)
  {
    if a in s.docs && a != ROOT {
      var e := RemoveEffect(s, a);
      assert Fits(s.docs, a);
      RemovePrunes(s, a);
      RemoveWellFormed(s, a);
      assert Front(a) in e.docs && e.docs[Front(a)].id == s.docs[Front(a)].id;
      forall x | x in s.docs && x !in e.docs ensures s.docs[x].id in e.notices {
        assert x in Subtree(s.docs, a);
      }
    }
  }

  // ------------------------------------------------------------------ create with parents

  /** The dir flag the command gives the prefix of length `j`. */
  function PrefixDir(a: Path, j: nat, dir: bool): bool {
    if j == |a| then dir else true
  }

  /** What the list of `x` gains when the missing prefixes of `a` from length `i` on are created. */
  function Gained(docs: Docs, a: Path, i: nat, dir: bool, x: Path): seq<Entry> {
    if x < a && i <= |x| + 1 && a[..|x| + 1] !in docs then [Entry(a[|x|], PrefixDir(a, |x| + 1, dir))] else []
  }

  /** A document that was there stays, but that its list may gain a child. */
  ghost predicate KeptDoc(docs: Docs, docs': Docs, a: Path, i: nat, dir: bool, x: Path) {
    x in docs ==> x in docs' && docs'[x] == docs[x].(nodes := docs[x].nodes + Gained(docs, a, i, dir, x))
  }

  /** A document that is new is a missing prefix of `a`, with no attributes and no data. */
  ghost predicate MadeDoc(docs: Docs, docs': Docs, a: Path, i: nat, dir: bool, x: Path) {
    x in docs' && x !in docs ==>
      && x <= a && i <= |x|
      && docs'[x] == Doc(docs'[x].id, PathString(x), Last(x), PrefixDir(a, |x|, dir), Gained(docs, a, i, dir, x), None, None)
  }

  /** Every prefix of `a` from length `i` on is stored, the missing ones newly; nothing else
      happens to the documents that were there but that some gain a child. */
  ghost predicate PrefixesCreated(docs: Docs, docs': Docs, a: Path, i: nat, dir: bool) {
    && (forall x :: KeptDoc(docs, docs', a, i, dir, x) && MadeDoc(docs, docs', a, i, dir, x))
    && (forall j | i <= j <= |a| :: a[..j] in docs')
  }

  lemma {:induction false} CreateParentsAnnounced(docs0: Docs, next0: Id, docs: Docs, notices: map<Id, Kind>, nextId: Id,
                                                  a: Path, i: nat, dir: bool)
    requires i <= |a| && ValidNames(a) && WellFormed(docs) && UniqueIds(docs, nextId) && 0 < nextId
    requires i > 0 ==> a[..i - 1] in docs
    requires docs0.Keys <= docs.Keys && Announced(docs0, next0, Effect(docs, notices, nextId, Error))
    ensures var e := CreateParentsFrom(docs, notices, nextId, a, i, dir);
            WellFormed(e.docs) && UniqueIds(e.docs, e.nextId) && Announced(docs0, next0, e)
    decreases |a| - i
  {
    var k, p := a[..i], StepParent(a, i);
    if k in docs {
      if i < |a| {
        CreateParentsAnnounced(docs0, next0, docs, notices, nextId, a, i + 1, dir);
      }
    } else {
      var flag := if i == |a| then dir else true;
      assert Front(k) == p;
      assert a[..|a|] == a;
      AddChildAnnounced(docs0, next0, notices, docs, nextId, k, flag, OkId(nextId));
      if i < |a| {
        CreateParentsAnnounced(docs0, next0, AddChild(docs, p, nextId, k, flag), notices[docs[p].id := Updated],
                               nextId + 1, a, i + 1, dir);
      }
    }
  }

  lemma {:induction false} CreateParentsCreates(docs: Docs, notices: map<Id, Kind>, nextId: Id, a: Path, i: nat, dir: bool)
    requires i <= |a| && ROOT in docs
    requires i > 0 ==> a[..i - 1] in docs
    ensures var e := CreateParentsFrom(docs, notices, nextId, a, i, dir);
            PrefixesCreated(docs, e.docs, a, i, dir) && a in e.docs && e.reply == OkId(e.docs[a].id)
    decreases |a| - i
  {
    var k, p := a[..i], StepParent(a, i);
    var e := CreateParentsFrom(docs, notices, nextId, a, i, dir);
    if i == |a| {
      assert k == a;
      forall x ensures KeptDoc(docs, e.docs, a, i, dir, x) && MadeDoc(docs, e.docs, a, i, dir, x) {
        CreateParentsEnd(docs, e.docs, nextId, a, dir, x);
      }
    } else if k in docs {
      CreateParentsCreates(docs, notices, nextId, a, i + 1, dir);
      forall x ensures KeptDoc(docs, e.docs, a, i, dir, x) && MadeDoc(docs, e.docs, a, i, dir, x) {
        assert KeptDoc(docs, e.docs, a, i + 1, dir, x) && MadeDoc(docs, e.docs, a, i + 1, dir, x);
      }
      assert KeptDoc(docs, e.docs, a, i, dir, k);
    } else {
      var docs' := AddChild(docs, p, nextId, k, true);
      CreateParentsCreates(docs', notices[docs[p].id := Updated], nextId + 1, a, i + 1, dir);
      forall x ensures KeptDoc(docs, e.docs, a, i, dir, x) && MadeDoc(docs, e.docs, a, i, dir, x) {
        assert KeptDoc(docs', e.docs, a, i + 1, dir, x) && MadeDoc(docs', e.docs, a, i + 1, dir, x);
        CreateParentsStep(docs, e.docs, nextId, a, i, dir, x);
      }
      assert KeptDoc(docs', e.docs, a, i + 1, dir, k);
    }
  }

  lemma CreateParentsEnd(docs: Docs, docs': Docs, nextId: Id, a: Path, dir: bool, x: Path)
    requires a in docs ==> docs' == docs
    requires a !in docs ==> a != [] && a[..|a| - 1] in docs && docs' == AddChild(docs, a[..|a| - 1], nextId, a, dir)
    ensures KeptDoc(docs, docs', a, |a|, dir, x) && MadeDoc(docs, docs', a, |a|, dir, x)
  {
    assert a[..|a|] == a;
    if x in docs {
      assert docs[x].nodes + [] == docs[x].nodes;
      if x < a && |a| <= |x| + 1 {
        assert x == a[..|a| - 1] && a[..|x| + 1] == a;
      }
    }
  }

  lemma CreateParentsStep(docs: Docs, docs'': Docs, nextId: Id, a: Path, i: nat, dir: bool, x: Path)
    requires 0 < i < |a| && a[..i] !in docs && a[..i - 1] in docs
    requires var docs' := AddChild(docs, a[..i - 1], nextId, a[..i], true);
             KeptDoc(docs', docs'', a, i + 1, dir, x) && MadeDoc(docs', docs'', a, i + 1, dir, x)
    ensures KeptDoc(docs, docs'', a, i, dir, x) && MadeDoc(docs, docs'', a, i, dir, x)
  {
    var k, p := a[..i], a[..i - 1];
    var docs' := AddChild(docs, p, nextId, k, true);
    assert Last(k) == a[i - 1];
    if x == p {
      assert Gained(docs', a, i + 1, dir, x) == [];
      assert a[..|x| + 1] == k;
      assert docs'[x].nodes + [] == docs'[x].nodes;
    } else {
      assert x < a ==> |x| + 1 != i;
      if x < a && i + 1 <= |x| + 1 {
        assert a[..|x| + 1] != p && a[..|x| + 1] != k;
      }
      assert Gained(docs, a, i, dir, x) == Gained(docs', a, i + 1, dir, x);
      if x == k {
        assert [] + Gained(docs', a, i + 1, dir, x) == Gained(docs', a, i + 1, dir, x);
      }
    }
  }

  /** The notices a step starts with stay below the ones it adds. */
  lemma {:induction false} NoticesAccumulate(docs: Docs, notices: map<Id, Kind>, nextId: Id,
                                             a: Path, i: nat, dir: bool)
    requires i <= |a|
    ensures var e, e0 := CreateParentsFrom(docs, notices, nextId, a, i, dir), CreateParentsFrom(docs, map[], nextId, a, i, dir);
            e == e0.(notices := notices + e0.notices)
    decreases |a| - i
  {
    var k, p := a[..i], StepParent(a, i);
    assert notices + map[] == notices;
    if k in docs {
      if i < |a| {
        NoticesAccumulate(docs, notices, nextId, a, i + 1, dir);
      }
    } else if p in docs {
      var docs' := AddChild(docs, p, nextId, k, if i == |a| then dir else true);
      var id := docs[p].id;
      assert notices[id := Updated] == notices + map[id := Updated];
      if i < |a| {
        NoticesAccumulate(docs', notices[id := Updated], nextId + 1, a, i + 1, dir);
        NoticesAccumulate(docs', map[id := Updated], nextId + 1, a, i + 1, dir);
        var m := CreateParentsFrom(docs', map[], nextId + 1, a, i + 1, dir).notices;
        assert notices[id := Updated] + m == notices + (map[id := Updated] + m);
      }
    }
  }

  /** A step that creates a prefix, as one addition followed by the remaining steps on their own. */
  lemma CreateParentsUnfold(docs: Docs, nextId: Id, a: Path, i: nat, dir: bool)
    requires i < |a| && a[..i] !in docs && StepParent(a, i) in docs
    ensures var p := StepParent(a, i);
            var e' := CreateParentsFrom(AddChild(docs, p, nextId, a[..i], true), map[], nextId + 1, a, i + 1, dir);
            CreateParentsFrom(docs, map[], nextId, a, i, dir)
              == e'.(notices := map[docs[p].id := Updated] + e'.notices)
  {
    var p := StepParent(a, i);
    NoticesAccumulate(AddChild(docs, p, nextId, a[..i], true), map[docs[p].id := Updated], nextId + 1, a, i + 1, dir);
  }

  lemma AddChildValid(s: Server, a: Path, dir: bool)
    requires Valid(s) && ValidNames(a) && a !in s.docs && Front(a) in s.docs
    ensures Valid(Server(AddChild(s.docs, Front(a), s.nextId, a, dir),
                         s.queue[s.docs[Front(a)].id := Updated], s.nextId + 1))
  {
    hide WellFormed, QueueAgrees, UniqueIds, Announced, AddChild;
    var id := s.docs[Front(a)].id;
    AddChildAnnounced(s.docs, s.nextId, map[], s.docs, s.nextId, a, dir, Error);
    var e := Effect(AddChild(s.docs, Front(a), s.nextId, a, dir), map[][id := Updated], s.nextId + 1, Error);
    AnnouncedQueue(s, e);
    OneMore(s.queue, id, Updated);
  }

  lemma OneMore(m: map<Id, Kind>, id: Id, kind: Kind)
    ensures m[id := kind] == m + map[][id := kind]
  {}

  // ------------------------------------------------------------------ all commands

  lemma EffectAnnounced(s: Server, cmd: Command)
    requires Valid(s)
    ensures var e := EffectOf(s, cmd);
            WellFormed(e.docs) && UniqueIds(e.docs, e.nextId) && Announced(s.docs, s.nextId, e)
  {
    var a, e := GetPathArray(cmd.path), EffectOf(s, cmd);
    match cmd
    case Exists(_) =>
    case Open(_) =>
    case Create(_, dir) => CreateAnnounced(s.docs, s.nextId, a, dir);
    case CreateParents(_, dir) => CreateParentsAnnounced(s.docs, s.nextId, s.docs, map[], s.nextId, a, 0, dir);
    case Remove(_) => RemoveAnnounced(s, a);
    case SetAttribute(_, key, val) => if a in s.docs { ChangeAnnounced(s, a, e.docs[a]); }
    case RemoveAttribute(_, key) => if a in s.docs && s.docs[a].attributes.Some? { ChangeAnnounced(s, a, e.docs[a]); }
    case SetString(_, text) => if a in s.docs { ChangeAnnounced(s, a, e.docs[a]); }
    case RemoveString(_) => if a in s.docs { ChangeAnnounced(s, a, e.docs[a]); }
  }

  lemma AnnouncedQueue(s: Server, e: Effect)
    requires Valid(s) && UniqueIds(e.docs, e.nextId) && Announced(s.docs, s.nextId, e)
    ensures QueueAgrees(Server(e.docs, s.queue + e.notices, e.nextId))
  {
    forall id | id in s.queue && id !in e.notices ensures Live(s.docs, id) <==> Live(e.docs, id) {
      if Live(s.docs, id) {
        var x :| x in s.docs && s.docs[x].id == id;
        assert x in e.docs && e.docs[x].id == id;
      }
      if Live(e.docs, id) {
        var x :| x in e.docs && e.docs[x].id == id;
        assert x in s.docs && s.docs[x].id == id;
      }
    }
  }

  /** Tree well-formedness over all command runs: every command keeps the invariant. */
  lemma ApplyKeepsValid(s: Server, cmd: Command)
    requires Valid(s)
    ensures Valid(Apply(s, cmd).0)
  {
    EffectAnnounced(s, cmd);
    AnnouncedQueue(s, EffectOf(s, cmd));
  }

  /** Every mutating command enqueues each node it changes, seen id by id. */
  lemma ApplyAnnounces(s: Server, cmd: Command, id: Id)
    requires Valid(s)
    ensures var s' := Apply(s, cmd).0;
            && (Find(s'.docs, id) != Find(s.docs, id) && Live(s.docs, id) ==> id in s'.queue)
            && (Live(s'.docs, id) && !Live(s.docs, id) ==> s.nextId <= id < s'.nextId)
            && (id in s.queue ==> id in s'.queue)
            && (id in s'.queue && id !in s.queue ==> Live(s.docs, id) || s.nextId <= id)
            && s.nextId <= s'.nextId
  {
    EffectAnnounced(s, cmd);
    var e := EffectOf(s, cmd);
    if Live(s.docs, id) {
      var x :| x in s.docs && s.docs[x].id == id;
      FindStored(s.docs, s.nextId, x);
      if x in e.docs {
        FindStored(e.docs, e.nextId, x);
      }
    } else if Live(e.docs, id) {
      var x :| x in e.docs && e.docs[x].id == id;
      assert x !in s.docs;
    }
  }

  /** Over any sequence of commands, starting from the stored root. */
  ghost predicate CommandRun(states: seq<Server>, cmds: seq<Command>) {
    && |states| == |cmds| + 1
    && states[0] == Initial()
    && (forall i | 0 <= i < |cmds| :: states[i + 1] == Apply(states[i], cmds[i]).0)
  }

  lemma {:induction false} RunKeepsValid(states: seq<Server>, cmds: seq<Command>, i: nat)
    requires CommandRun(states, cmds) && i < |states|
    ensures Valid(states[i])
  {
    if i == 0 {
      InitialValid();
    } else {
      RunKeepsValid(states, cmds, i - 1);
      ApplyKeepsValid(states[i - 1], cmds[i - 1]);
    }
  }

  // ------------------------------------------------------------------ what single commands mean

  /** `after` is `before` without one occurrence of `e`, in the same order. */
  ghost predicate OneOut(before: seq<Entry>, after: seq<Entry>, e: Entry) {
    exists i :: 0 <= i < |before| && before[i] == e && after == before[..i] + before[i + 1..]
  }

  /** `s'` is `s` without the subtree at `a`: nothing else goes, the parent's list loses exactly the
      entry of `a`, and "removed" is queued for everything that went. */
  ghost predicate SubtreeRemoved(s: Server, s': Server, a: Path)
    requires a in s.docs && Front(a) in s.docs
  {
    && (forall x :: x in s'.docs <==> x in s.docs && !(a <= x))
    && (forall x | x in s'.docs && x != Front(a) :: s'.docs[x] == s.docs[x])
    && Front(a) in s'.docs
    && s'.docs[Front(a)] == s.docs[Front(a)].(nodes := s'.docs[Front(a)].nodes)
    && OneOut(s.docs[Front(a)].nodes, s'.docs[Front(a)].nodes, Entry(Last(a), s.docs[a].dir))
    && (forall x | x in s.docs && a <= x :: s.docs[x].id in s'.queue && s'.queue[s.docs[x].id] == Removed)
  }

  /** Remove takes away exactly the subtree, and nothing at all for the root or a missing path. */
  lemma RemoveExactly(s: Server, path: string)
    requires Valid(s)
    ensures var a, s' := GetPathArray(path), Apply(s, Remove(path)).0;
            if a == ROOT || a !in s.docs then s' == s
            else Front(a) in s.docs && SubtreeRemoved(s, s', a)
  {
    var a, s' := GetPathArray(path), Apply(s, Remove(path)).0;
    assert s.queue + map[] == s.queue;
    if a != ROOT && a in s.docs {
      assert Fits(s.docs, a);
      RemovePrunes(s, a);
      RemovedQueued(s, a);
      assert Fits(s.docs, Front(a));
      WithoutOne(s.docs[Front(a)].nodes, Entry(Last(a), s.docs[a].dir));
    }
  }

  lemma RemovedQueued(s: Server, a: Path)
    requires Valid(s) && a in s.docs && a != ROOT && Front(a) in s.docs
    ensures forall x | x in s.docs && a <= x ::
              s.docs[x].id in RemoveEffect(s, a).notices && RemoveEffect(s, a).notices[s.docs[x].id] == Removed
  {
    forall x | x in s.docs && a <= x
      ensures s.docs[x].id in RemoveEffect(s, a).notices && RemoveEffect(s, a).notices[s.docs[x].id] == Removed
    {
      assert x in Subtree(s.docs, a);
      assert s.docs[x].id != s.docs[Front(a)].id;
    }
  }

  /** Where names are distinct, dropping the entries of one name drops one entry. */
  lemma {:induction false} WithoutOne(nodes: seq<Entry>, e: Entry)
    requires DistinctNames(nodes) && e in nodes
    ensures OneOut(nodes, Without(nodes, e.name), e)
  {
    if nodes[0].name == e.name {
      assert nodes[0] == e;
      WithoutNone(nodes[1..], e.name);
      assert nodes[..0] + nodes[1..] == nodes[1..];
    } else {
      WithoutOne(nodes[1..], e);
      var rest := nodes[1..];
      var i :| 0 <= i < |rest| && rest[i] == e && Without(rest, e.name) == rest[..i] + rest[i + 1..];
      assert nodes[i + 1] == e;
      assert [nodes[0]] + (rest[..i] + rest[i + 1..]) == nodes[..i + 1] + nodes[i + 2..];
    }
  }

  lemma {:induction false} WithoutNone(nodes: seq<Entry>, name: string)
    requires forall i | 0 <= i < |nodes| :: nodes[i].name != name
    ensures Without(nodes, name) == nodes
  {
    if nodes != [] {
      WithoutNone(nodes[1..], name);
    }
  }

  /** Create with parents ends with every prefix stored and answers with the full path's id; in a
      well-formed tree no step finds its parent missing. */
  lemma CreateParentsExactly(s: Server, path: string, dir: bool)
    requires Valid(s)
    ensures var a, e := GetPathArray(path), EffectOf(s, CreateParents(path, dir));
            PrefixesCreated(s.docs, e.docs, a, 0, dir) && a in e.docs && e.reply == OkId(e.docs[a].id)
  {
    CreateParentsCreates(s.docs, map[], s.nextId, GetPathArray(path), 0, dir);
  }
}
