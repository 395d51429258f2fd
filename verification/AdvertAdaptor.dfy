/** An advert object over a connection: how it opens, and its attributes, while nobody else moves.
    What other clients and the reader thread may do in between is the subject of the cache protocol. */
module AdvertAdaptor {
  import opened Options
  import opened Paths
  import opened AdvertStore
  import opened AdvertCommands
  import opened AdvertLaws
  import opened AdvertMeaning
  import opened ConnectionState
  import opened AdvertServerModule
  import opened ServerConnectionModule

  datatype Mode = Mode(create: bool, parents: bool, exclusive: bool, read: bool, write: bool)

  /** How a call ends: with a value or one of the exceptions, or not at all. */
  datatype Outcome = Done | Value(text: string) | AlreadyExists | DoesNotExist | IncorrectState | PermissionDenied |
                     WaitsForever

  function Creates(mode: Mode): bool {
    mode.create || mode.parents
  }

  /** The connection once it has its reply. */
  function Took(c: Connection, path: string, reply: Reply): Connection {
    if reply.OkId? then TakeAnswer(c, path, reply.id, true) else c
  }

  /** The constructor's create call. */
  function Created(c: Connection, s: Server, path: string, mode: Mode): (Connection, Server) {
    if !Creates(mode) then (c, s)
    else
      var (s', reply) := Apply(s, if mode.parents then CreateParents(path, false) else Create(path, false));
      (Took(c, path, reply), s')
  }

  function Constructed(c: Connection, s: Server, path: string, mode: Mode): (Connection, Server, Outcome) {
    if Creates(mode) && mode.exclusive && Apply(s, Exists(path)).1 == True then (c, s, AlreadyExists)
    else
      var (c1, s1) := Created(c, s, path, mode);
      var c2 := if mode.create && mode.parents then c1 else Took(c1, path, Apply(s1, Open(path)).1);
      (Touch(c2, path), s1, if IdOf(c2, path) in c2.updateMap then Done else DoesNotExist)
  }

  /** How often the constructor subscribes to the node it opens: with one of the two create flags
      set it calls both the create and the open. */
  function Subscriptions(mode: Mode): nat {
    if Creates(mode) && !(mode.create && mode.parents) then 2 else 1
  }

  function Subs(id: Id, n: nat): seq<Handover> {
    seq(n, _ => Sub(id))
  }

  lemma CreateReplies(s: Server, path: string, dir: bool)
    requires Valid(s)
    ensures var (s1, r) := Apply(s, Create(path, dir));
            && Valid(s1) && (r.OkId? || r.Error?) && (r.OkId? <==> GetPathArray(path) in s1.docs)
            && (r.OkId? ==> r == OkId(s1.docs[GetPathArray(path)].id))
    ensures var (s1, r) := Apply(s, CreateParents(path, dir));
            Valid(s1) && GetPathArray(path) in s1.docs && r == OkId(s1.docs[GetPathArray(path)].id)
  {
    hide WellFormed, UniqueIds, QueueAgrees;
    ApplyKeepsValid(s, Create(path, dir));
    ApplyKeepsValid(s, CreateParents(path, dir));
    CreateParentsExactly(s, path, dir);
  }

  class Advert {
    const path: string
    const mode: Mode
    const connection: ServerConnection
    const server: AdvertServer
    var isOpen: bool

    constructor (path: string, mode: Mode, connection: ServerConnection, server: AdvertServer)
      ensures this.path == path && this.mode == mode && this.connection == connection && this.server == server
      ensures !isOpen
    {
      this.path, this.mode, this.connection, this.server := path, mode, connection, server;
      isOpen := false;
    }

    /** What the constructor does once it has its connection. */
    method Construct() returns (outcome: Outcome)
      requires Valid(server.State())
      modifies this, connection, server
      ensures (connection.State(), server.State(), outcome) ==
              Constructed(old(connection.State()), old(server.State()), path, mode)
      ensures outcome == Done ==> isOpen
    {
      hide Valid, Apply, TakeAnswer;
      AskMeans(server.State(), path);
      if (mode.create || mode.parents) && mode.exclusive {
        var there := server.Exists(path);
        if there == True {
          return AlreadyExists;
        }
      }
      if mode.create || mode.parents {
        CreateReplies(server.State(), path, false);
        var reply;
        if mode.parents {
          reply := server.CreateParents(path, false);
        } else {
          reply := server.Create(path, false);
        }
        connection.OnReply(path, reply, true);
      }
      if !mode.create || !mode.parents {
        AskMeans(server.State(), path);
        var reply := server.Open(path);
        connection.OnReply(path, reply, true);
      }
      isOpen := connection.GetState(path);
      outcome := if isOpen then Done else DoesNotExist;
    }

    /** `check_if_open` and `check_permissions` after a call that has set `isOpen`. */
    method Check(allowed: bool) returns (failure: Option<Outcome>)
      ensures failure == if !isOpen then Some(IncorrectState) else if !allowed then Some(PermissionDenied) else None
    {
      failure := if !isOpen then Some(IncorrectState) else if !allowed then Some(PermissionDenied) else None;
    }

    method SetAttribute(key: string, val: string) returns (outcome: Outcome)
      requires Valid(server.State())
      modifies this, connection, server
      ensures (connection.State(), server.State(), outcome) ==
              SetOn(old(connection.State()), old(server.State()), path, mode, key, val)
      ensures isOpen == (IdOf(old(connection.State()), path) in old(connection.updateMap))
    {
      isOpen := connection.GetState(path);
      var failure := Check(mode.write);
      if failure.Some? {
        return failure.value;
      }
      var reply := server.SetAttribute(path, key, Scalar(val));
      connection.OnReply(path, reply, false);
      outcome := if reply.OkId? then Done else WaitsForever;
    }

    method Close()
      modifies this, connection
      ensures connection.State() == LetGo(old(connection.State()), path) && !isOpen
    {
      connection.CloseDirectory(path);
      isOpen := false;
    }

    method GetAttribute(key: string) returns (outcome: Outcome)
      requires Valid(server.State())
      modifies this, connection
      ensures (connection.State(), outcome) == GetOn(old(connection.State()), server.docs, path, mode, key)
      ensures isOpen == ConnectionState.GetValue(old(connection.State()), path, server.docs).1
    {
      var value;
      isOpen, value := connection.GetValue(path, server);
      var failure := Check(mode.read);
      if failure.Some? {
        return failure.value;
      }
      if value.None? || value.value.attributes.None? || key !in value.value.attributes.value {
        return DoesNotExist;
      }
      var found := value.value.attributes.value[key];
      outcome := if found.Vector? then IncorrectState else Outcome.Value(found.text);
    }
  }

  function SetOn(c: Connection, s: Server, path: string, mode: Mode, key: string, val: string)
    : (Connection, Server, Outcome)
  {
    var t := Touch(c, path);
    if IdOf(c, path) !in c.updateMap then (t, s, IncorrectState)
    else if !mode.write then (t, s, PermissionDenied)
    else
      var (s', reply) := Apply(s, Command.SetAttribute(path, key, Scalar(val)));
      if reply.OkId? then (TakeAnswer(t, path, reply.id, false), s', Done) else (t, s', WaitsForever)
  }

  ghost function GetOn(c: Connection, docs: Docs, path: string, mode: Mode, key: string): (Connection, Outcome) {
    var (c', ok, value) := GetValue(c, path, docs);
    (c',
     if !ok then IncorrectState
     else if !mode.read then PermissionDenied
     else if value.None? || AttributeIn(value.value, key).None? then DoesNotExist
     else if AttributeIn(value.value, key).value.Vector? then IncorrectState
     else Outcome.Value(AttributeIn(value.value, key).value.text))
  }

  /** An exclusive create of a stored path fails and changes nothing.  Otherwise construction succeeds
      exactly if its node is there in the end, or an earlier open of the path has left its flag in the
      connection; a node that is there is then open, dirty and subscribed. */
  lemma ConstructedIff(c: Connection, s: Server, path: string, mode: Mode)
    requires Valid(s)
    ensures var (c', s', outcome) := Constructed(c, s, path, mode);
            if Creates(mode) && mode.exclusive && GetPathArray(path) in s.docs then
              c' == c && s' == s && outcome == AlreadyExists
            else
              && (outcome == Done <==> GetPathArray(path) in s'.docs || IdOf(c, path) in c.updateMap)
              && (outcome != Done ==> outcome == DoesNotExist)
              && c'.subs == c.subs && c'.nodeMap == c.nodeMap
              && (GetPathArray(path) in s'.docs ==>
                    var id := s'.docs[GetPathArray(path)].id;
                    && IdOf(c', path) == id && c'.updateMap == c.updateMap[id := true]
                    && c'.pipe == c.pipe + Subs(id, Subscriptions(mode)))
  {
    hide Valid, Apply;
    CreateReplies(s, path, false);
    AskMeans(s, path);
    var (c1, s1) := Created(c, s, path, mode);
    AskMeans(s1, path);
    if GetPathArray(path) in s1.docs {
      var id := s1.docs[GetPathArray(path)].id;
      assert c.updateMap[id := true][id := true] == c.updateMap[id := true];
      assert Subs(id, 1) == [Sub(id)] && Subs(id, 2) == [Sub(id)] + [Sub(id)];
      assert c.pipe + [Sub(id)] + [Sub(id)] == c.pipe + ([Sub(id)] + [Sub(id)]);
    }
  }

  lemma ConstructedValid(c: Connection, s: Server, path: string, mode: Mode)
    requires Valid(s)
    ensures Valid(Constructed(c, s, path, mode).1)
  {
    hide Valid, Apply;
    CreateReplies(s, path, false);
  }

  /** An advert whose node is there after construction reads the server's document, whatever the
      connection had cached. */
  lemma ConstructedReads(c: Connection, s: Server, path: string, mode: Mode)
    requires Valid(s) && Constructed(c, s, path, mode).2 == Done
    requires GetPathArray(path) in Constructed(c, s, path, mode).1.docs
    ensures var (c', s', _) := Constructed(c, s, path, mode);
            var (_, ok, value) := GetValue(c', path, s'.docs);
            ok && value == Some(s'.docs[GetPathArray(path)])
  {
    hide WellFormed, QueueAgrees, Constructed, UniqueIds;
    var s' := Constructed(c, s, path, mode).1;
    ConstructedValid(c, s, path, mode);
    FindStored(s'.docs, s'.nextId, GetPathArray(path));
    ConstructedIff(c, s, path, mode);
  }

  /** What construction does to the server, by what is there and the mode: create with parents always
      succeeds and makes every missing prefix; create alone makes at most the one node, below a parent
      that is there; an open makes nothing. */
  lemma ConstructedMeans(c: Connection, s: Server, path: string, mode: Mode)
    requires Valid(s) && !(Creates(mode) && mode.exclusive && GetPathArray(path) in s.docs)
    ensures var a, (_, s', outcome) := GetPathArray(path), Constructed(c, s, path, mode);
            var flagged := IdOf(c, path) in c.updateMap;
            if mode.parents then
              outcome == Done && PrefixesCreated(s.docs, s'.docs, a, 0, false)
            else if mode.create then
              && (outcome == Done <==> a in s.docs || Front(a) in s.docs || flagged)
              && if a !in s.docs && Front(a) in s.docs then OneAdded(s, s', a, false) else s' == s
            else s' == s && (outcome == Done <==> a in s.docs || flagged)
  {
    hide Valid, Apply, PrefixesCreated, GetPathArray;
    ConstructedIff(c, s, path, mode);
    AskMeans(s, path);
    if mode.parents {
      CreateParentsMeans(s, path, false);
    } else {
      CreateMeans(s, path, false);
    }
  }

  /** A node that construction has made shows no attribute and no data in the first read. */
  lemma FreshIsBlank(c: Connection, s: Server, path: string, mode: Mode)
    requires Valid(s) && GetPathArray(path) !in s.docs && GetPathArray(path) in Constructed(c, s, path, mode).1.docs
    ensures var (c', s', outcome) := Constructed(c, s, path, mode);
            var (_, ok, value) := GetValue(c', path, s'.docs);
            && outcome == Done && ok && value.Some?
            && value.value.path == PathString(GetPathArray(path)) && value.value.name == Last(GetPathArray(path))
            && !value.value.dir && value.value.nodes == [] && value.value.attributes.None? && value.value.data.None?
  {
    hide Valid, Constructed, GetPathArray, GetValue;
    var a := GetPathArray(path);
    ConstructedIff(c, s, path, mode);
    ConstructedMeans(c, s, path, mode);
    ConstructedReads(c, s, path, mode);
    var s' := Constructed(c, s, path, mode).1;
    if mode.parents {
      assert MadeDoc(s.docs, s'.docs, a, 0, false, a);
    }
  }

  /** When `get_attribute` ends how, by the flag, the mode, and the document it reads: the server's where
      the flag is dirty, and otherwise the cached one. */
  lemma GetMeans(c: Connection, docs: Docs, path: string, mode: Mode, key: string)
    ensures var id, (_, outcome) := IdOf(c, path), GetOn(c, docs, path, mode, key);
            var dirty := id in c.updateMap && c.updateMap[id];
            var d := if dirty then Find(docs, id) else Cached(c, path);
            var isOpen := id in c.updateMap && (dirty ==> Live(docs, id));
            var found := if d.Some? then AttributeIn(d.value, key) else None;
            && GetOn(c, docs, path, mode, key).0 == GetValue(c, path, docs).0
            && (outcome == PermissionDenied <==> isOpen && !mode.read)
            && (outcome == DoesNotExist <==> isOpen && mode.read && found.None?)
            && (outcome == IncorrectState <==> !isOpen || (mode.read && found.Some? && found.value.Vector?))
            && (forall text :: outcome == Outcome.Value(text) <==> isOpen && mode.read && found == Some(Scalar(text)))
  {}

  /** When `set_attribute` ends how.  Unless it is done, nothing on the server changes; so without write
      permission nothing does. */
  lemma SetMeans(c: Connection, s: Server, path: string, mode: Mode, key: string, val: string)
    ensures var a, (c', s', outcome) := GetPathArray(path), SetOn(c, s, path, mode, key, val);
            var isOpen := IdOf(c, path) in c.updateMap;
            && (outcome == IncorrectState <==> !isOpen)
            && (outcome == PermissionDenied <==> isOpen && !mode.write)
            && (outcome == WaitsForever <==> isOpen && mode.write && a !in s.docs)
            && (outcome == Done <==> isOpen && mode.write && a in s.docs)
            && c'.pipe == c.pipe && c'.subs == c.subs && c'.nodeMap == c.nodeMap
            && if outcome == Done then
                 && OneAttribute(s.docs, s'.docs, a, key, Some(Scalar(val)))
                 && s'.queue == s.queue[s.docs[a].id := Updated] && s'.nextId == s.nextId
                 && IdOf(c', path) == s.docs[a].id && c'.updateMap == c.updateMap[s.docs[a].id := true]
               else s' == s && c'.updateMap == c.updateMap && IdOf(c', path) == IdOf(c, path)
  {
    hide GetPathArray, Apply;
    AttributesMean(s, path, key, Scalar(val));
    if GetPathArray(path) in s.docs {
      AttributeCommands(s, path, key, Scalar(val));
    }
  }

  /** An advert that has set an attribute gets it, whatever its connection had cached. */
  lemma SetThenGet(c: Connection, s: Server, path: string, mode: Mode, key: string, val: string)
    requires Valid(s) && mode.read && SetOn(c, s, path, mode, key, val).2 == Done
    ensures var (c1, s1, _) := SetOn(c, s, path, mode, key, val);
            GetOn(c1, s1.docs, path, mode, key).1 == Outcome.Value(val)
  {
    hide WellFormed, UniqueIds, QueueAgrees, GetPathArray;
    var a := GetPathArray(path);
    var s1 := SetOn(c, s, path, mode, key, val).1;
    ApplyKeepsValid(s, Command.SetAttribute(path, key, Scalar(val)));
    FindStored(s1.docs, s1.nextId, a);
  }
}
