/** The protocol's steps, put together, are the calls of the adaptor's code: what is proved over runs is
    about that code. */
module ProtocolCode {
  import opened Options
  import opened Paths
  import opened AdvertStore
  import opened AdvertMeaning
  import opened ConnectionState
  import opened CacheProtocol
  import opened AdvertAdaptor

  /** A command is served and its caller takes the answer, with nothing in between. */
  function Called(c: Client, s: Server, cmd: Command): Client {
    var d := AfterCall(c, cmd, Apply(s, cmd).1, false);
    if d.pending.Answered? || d.pending.RemoveAnswered? then AfterReturn(d) else d
  }

  /** The calls of the advert constructor. */
  function Calls(c: Client, s: Server, path: string, mode: Mode): (Client, Server) {
    var create := if mode.parents then CreateParents(path, false) else Create(path, false);
    var (c1, s1) := if Creates(mode) then (Called(c, s, create), Apply(s, create).0) else (c, s);
    (if mode.create && mode.parents then c1 else Called(c1, s1, Open(path)), s1)
  }

  /** A call that answers an id marks it dirty and, but for the attribute and string calls, subscribes. */
  lemma CalledTakes(c: Client, s: Server, cmd: Command)
    requires c.pending.Idle? && (Apply(s, cmd).1.OkId? || Apply(s, cmd).1.Error?)
    ensures var d, reply := Called(c, s, cmd), Apply(s, cmd).1;
            && d.pending.Idle?
            && (cmd.Open? || cmd.Create? || cmd.CreateParents? ==> d.conn == Took(c.conn, cmd.path, reply))
            && (cmd.SetAttribute? || cmd.RemoveAttribute? || cmd.SetString? || cmd.RemoveString? ==>
                  d.conn == if reply.OkId? then TakeAnswer(c.conn, cmd.path, reply.id, false) else c.conn)
  {
    hide Apply;
  }

  /** The constructor is these calls: its connection and its server are those of the protocol. */
  lemma ConstructIsCalls(c: Client, s: Server, path: string, mode: Mode)
    requires Valid(s) && c.pending.Idle? && !(Creates(mode) && mode.exclusive && GetPathArray(path) in s.docs)
    ensures var (c', s') := Calls(c, s, path, mode);
            && Touch(c'.conn, path) == Constructed(c.conn, s, path, mode).0 && s' == Constructed(c.conn, s, path, mode).1
  {
    hide Apply, Valid, GetPathArray, Called, Took;
    var create := if mode.parents then CreateParents(path, false) else Create(path, false);
    var s1 := Calls(c, s, path, mode).1;
    CreateReplies(s, path, false);
    CalledTakes(c, s, create);
    AskMeans(s, path);
    AskMeans(s1, path);
    CalledTakes(c, s1, Open(path));
    CalledTakes(Called(c, s, create), s1, Open(path));
  }

  /** So are an attribute that is set, and a remove. */
  lemma SetIsCall(c: Client, s: Server, path: string, mode: Mode, key: string, val: string)
    requires c.pending.Idle? && SetOn(c.conn, s, path, mode, key, val).2 == Done
    ensures var cmd := Command.SetAttribute(path, key, Scalar(val));
            && Called(c, s, cmd).conn == SetOn(c.conn, s, path, mode, key, val).0
            && Apply(s, cmd).0 == SetOn(c.conn, s, path, mode, key, val).1
  {
    hide Apply;
    CalledTakes(c, s, Command.SetAttribute(path, key, Scalar(val)));
  }

  lemma RemoveIsCall(c: Client, s: Server, path: string)
    requires Valid(s) && c.pending.Idle?
    ensures Called(c, s, Remove(path)).conn == LetGo(c.conn, path)
  {
    hide Apply, Valid;
    RemoveMeans(s, path);
  }

  /** And a `get_value` is its three parts. */
  lemma GetIsSteps(c: Client, w: World, url: string)
    requires c.pending.Idle?
    ensures var d, (conn, ok, value) := AfterLook(c, url), GetValue(c.conn, url, w.server.docs);
            if d.pending.Idle? then d.conn == conn
            else
              && d.pending.Asked?
              && var e := AfterServe(w, d);
                 && e.pending.Fetched? && AfterStore(e).conn == conn && AfterStore(e).pending.Idle?
                 && e.pending.answer == (if ok then value else None)
  {
    hide Find;
  }
}
