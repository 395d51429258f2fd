/** One server and any number of connections as a state machine: commands, the flush of the message
    queue, messages on their way, and `get_value` cut where another thread or client can get in. */
module CacheProtocol {
  import opened Paths
  import opened Options
  import opened AdvertStore
  import opened AdvertCommands
  import opened ConnectionState

  /** Where a connection's only application thread is. */
  datatype Pending =
    | Idle
    | Asked(url: string, id: Id)                                       // get_value has cleared the flag
    | Fetched(url: string, id: Id, answer: Option<Doc>, stamp: nat)    // and the server has answered it
    | Answered(url: string, id: Id, subscribe: bool)                   // another call has its id
    | RemoveAnswered(url: string)

  /** A published notice; `stamp` is when its node last changed. */
  datatype Message = Message(id: Id, kind: Kind, stamp: nat)

  /** A write under observation; `hold` says that the value is still there. */
  datatype Own = Own(url: string, id: Id, key: string, val: Value, hold: bool)

  /** `cacheStamp`, `announced` and `own` only record history. */
  datatype Client = Client(conn: Connection, inbox: seq<Message>, pending: Pending,
                           cacheStamp: map<string, nat>, announced: map<Id, nat>, own: Option<Own>)

  /** The server, and the history of its ids: the path of each, and when it last changed. */
  datatype World = World(server: Server, born: map<Id, Path>, stamps: map<Id, nat>, clock: nat)

  datatype Sys = Sys(world: World, clients: seq<Client>)

  // ------------------------------------------------------------------ the world

  /** The document that id `id` has now. */
  function Now(w: World, id: Id): Option<Doc> {
    if id in w.born && w.born[id] in w.server.docs && w.server.docs[w.born[id]].id == id
    then Some(w.server.docs[w.born[id]]) else None
  }

  predicate Alive(w: World, id: Id) {
    Now(w, id).Some?
  }

  ghost predicate GoodWorld(w: World) {
    && Valid(w.server)
    && (forall id :: id in w.born <==> 0 < id < w.server.nextId)
    && w.stamps.Keys == w.born.Keys
    && (forall id | id in w.stamps :: w.stamps[id] <= w.clock)
    && (forall a | a in w.server.docs :: w.server.docs[a].id in w.born && w.born[w.server.docs[a].id] == a)
    && (forall id | id in w.born :: ValidNames(w.born[id]))
  }

  function Stamp(w: World, id: Id): nat {
    if id in w.stamps then w.stamps[id] else 0
  }

  /** The world after a command: whatever changed gets the new time. */
  ghost function Move(w: World, cmd: Command): World {
    var server := Apply(w.server, cmd).0;
    var born := map id | 0 < id < server.nextId ::
      if id in w.born then w.born[id]
      else if Live(server.docs, id) then (var a :| a in server.docs && server.docs[a].id == id; a)
      else [];
    var moved := World(server, born, map[], w.clock + 1);
    moved.(stamps := map id | 0 < id < server.nextId ::
      if id in w.stamps && Now(w, id) == Now(moved, id) then w.stamps[id] else w.clock + 1)
  }

  /** What the clients may know about a move of the world, id by id. */
  ghost predicate Moved(w: World, w': World, id: Id) {
    && w'.clock == w.clock + 1
    && (id in w.server.queue ==> id in w'.server.queue)
    && (id in w'.server.queue && id !in w.server.queue && id in w.born ==> Alive(w, id))
    && (Now(w', id) != Now(w, id) && Alive(w, id) ==> id in w'.server.queue)
    && (id in w.born ==> id in w'.born && w'.born[id] == w.born[id] && (Alive(w', id) ==> Alive(w, id)))
    && (Now(w', id) == Now(w, id) && id in w.stamps ==> Stamp(w', id) == Stamp(w, id))
    && ((Now(w', id) != Now(w, id) || id !in w.born) && id in w'.born ==> Stamp(w', id) == w'.clock)
  }

  lemma NowIsFind(w: World, id: Id)
    requires GoodWorld(w)
    ensures Find(w.server.docs, id) == Now(w, id)
    ensures Alive(w, id) <==> Live(w.server.docs, id)
    ensures Alive(w, id) ==> 0 < id < w.server.nextId && Now(w, id).value.id == id
  {
    if Live(w.server.docs, id) {
      var a :| a in w.server.docs && w.server.docs[a].id == id;
      FindStored(w.server.docs, w.server.nextId, a);
    }
  }

  /** A living id is born at its own path. */
  lemma MoveBorn(w: World, cmd: Command, a: Path)
    requires GoodWorld(w) && a in Move(w, cmd).server.docs
    ensures var w', id := Move(w, cmd), Move(w, cmd).server.docs[a].id; id in w'.born && w'.born[id] == a
  {
    hide WellFormed, QueueAgrees, EffectOf;
    var docs' := Move(w, cmd).server.docs;
    ApplyKeepsValid(w.server, cmd);
    EffectAnnounced(w.server, cmd);
    assert Live(docs', docs'[a].id);
  }

  lemma MoveNames(w: World, cmd: Command, id: Id)
    requires GoodWorld(w)
    ensures id in Move(w, cmd).born ==> ValidNames(Move(w, cmd).born[id])
  {
    hide WellFormed, QueueAgrees, EffectOf, UniqueIds;
    var w' := Move(w, cmd);
    ApplyKeepsValid(w.server, cmd);
    if id in w'.born && id !in w.born && Live(w'.server.docs, id) {
      assert w'.born[id] in w'.server.docs;
      KeysValid(w'.server, w'.born[id]);
    }
  }

  lemma MoveShape(w: World, cmd: Command)
    requires GoodWorld(w)
    ensures var w' := Move(w, cmd);
            && (forall id :: id in w'.born <==> 0 < id < w'.server.nextId)
            && w'.stamps.Keys == w'.born.Keys
            && (forall id | id in w'.stamps :: w'.stamps[id] <= w'.clock)
  {
    hide Apply, Valid, Now, Live;
  }

  lemma MoveGood(w: World, cmd: Command)
    requires GoodWorld(w)
    ensures GoodWorld(Move(w, cmd))
  {
    hide Valid, Move, Apply;
    var w' := Move(w, cmd);
    assert w'.server == Apply(w.server, cmd).0 by {
      MoveServer(w, cmd);
    }
    ApplyKeepsValid(w.server, cmd);
    MoveShape(w, cmd);
    forall a | a in w'.server.docs ensures w'.server.docs[a].id in w'.born && w'.born[w'.server.docs[a].id] == a {
      MoveBorn(w, cmd, a);
    }
    forall id | id in w'.born ensures ValidNames(w'.born[id]) {
      MoveNames(w, cmd, id);
    }
  }

  lemma MoveServer(w: World, cmd: Command)
    ensures Move(w, cmd).server == Apply(w.server, cmd).0
  {}

  lemma KeysValid(s: Server, a: Path)
    requires Valid(s) && a in s.docs
    ensures ValidNames(a) && s.docs[a].path == PathString(a)
  {
    assert TrueToPath(a, s.docs[a]);
  }

  lemma MoveMoved(w: World, cmd: Command, id: Id)
    requires GoodWorld(w)
    ensures Moved(w, Move(w, cmd), id)
  {
    hide WellFormed, QueueAgrees;
    var w' := Move(w, cmd);
    MoveGood(w, cmd);
    ApplyAnnounces(w.server, cmd, id);
    NowIsFind(w, id);
    NowIsFind(w', id);
  }

  // ------------------------------------------------------------------ the steps

  datatype Step =
    | Call(c: nat, cmd: Command, watch: bool)   // a command is sent and served; `watch` observes a write
    | Return(c: nat)                            // its caller takes the answer
    | Close(c: nat, url: string)
    | TakeOver(c: nat)                          // the reader thread takes a hand-over off its pipe
    | Flush(order: seq<Id>)                     // the queue is published in this order
    | Read(c: nat)                              // the reader thread takes a message
    | Look(c: nat, url: string)                 // get_value finds the flag, and clears it
    | Serve(c: nat)                             // its request is served
    | Store(c: nat)                             // its answer is stored and delivered

  predicate Subscribes(cmd: Command) {
    cmd.Open? || cmd.Create? || cmd.CreateParents?
  }

  ghost predicate Enumerates(order: seq<Id>, queue: map<Id, Kind>) {
    && (forall i, j | 0 <= i < j < |order| :: order[i] != order[j])
    && (forall id :: id in order <==> id in queue)
  }

  /** A step can happen.  URLs are canonical, as the adaptors make them; a call that is never
      answered is no step. */
  ghost predicate Enabled(s: Sys, st: Step) {
    match st
    case Call(c, cmd, _) =>
      c < |s.clients| && s.clients[c].pending.Idle? && Canonical(cmd.path)
      && !Apply(s.world.server, cmd).1.NoReply? && !Apply(s.world.server, cmd).1.Crash?
    case Return(c) => c < |s.clients| && (s.clients[c].pending.Answered? || s.clients[c].pending.RemoveAnswered?)
    case Close(c, url) => c < |s.clients| && s.clients[c].pending.Idle? && Canonical(url)
    case TakeOver(c) => c < |s.clients| && s.clients[c].conn.pipe != []
    case Flush(order) => Enumerates(order, s.world.server.queue)
    case Read(c) => c < |s.clients| && s.clients[c].inbox != []
    case Look(c, url) => c < |s.clients| && s.clients[c].pending.Idle? && Canonical(url)
    case Serve(c) => c < |s.clients| && s.clients[c].pending.Asked?
    case Store(c) => c < |s.clients| && s.clients[c].pending.Fetched?
  }

  function Shows(d: Option<Doc>, key: string, val: Value): bool {
    d.Some? && d.value.attributes.Some? && key in d.value.attributes.value && d.value.attributes.value[key] == val
  }

  /** Whether the observed value is still there after the world has moved to `w`. */
  function Observe(w: World, c: Client): Client {
    if c.own.None? then c
    else c.(own := Some(c.own.value.(hold := c.own.value.hold && Shows(Now(w, c.own.value.id), c.own.value.key, c.own.value.val))))
  }

  function AfterCall(c: Client, cmd: Command, reply: Reply, watch: bool): Client {
    var c1 := c.(pending := match reply
                            case OkId(id) => Answered(cmd.path, id, Subscribes(cmd))
                            case OkRemoved => RemoveAnswered(cmd.path)
                            case _ => Idle);
    if watch && cmd.SetAttribute? && reply.OkId?
    then c1.(own := Some(Own(cmd.path, reply.id, cmd.key, cmd.val, true))) else c1
  }

  function AfterReturn(c: Client): Client
    requires c.pending.Answered? || c.pending.RemoveAnswered?
  {
    var p := c.pending;
    c.(pending := Idle,
       conn := if p.Answered? then TakeAnswer(c.conn, p.url, p.id, p.subscribe) else LetGo(c.conn, p.url))
  }

  function AfterRead(c: Client): Client
    requires c.inbox != []
  {
    var m := c.inbox[0];
    c.(inbox := c.inbox[1..],
       conn := Receive(c.conn, m.id, m.kind),
       announced := if m.id in c.conn.subs && m.kind == Updated
                    then c.announced[m.id := Max(AnnouncedAt(c, m.id), m.stamp)] else c.announced)
  }

  function Max(a: nat, b: nat): nat {
    if a < b then b else a
  }

  /** The newest change of `id` that a delivered notice has told the client of. */
  function AnnouncedAt(c: Client, id: Id): nat {
    if id in c.announced then c.announced[id] else 0
  }

  function AfterLook(c: Client, url: string): Client {
    var (conn, look) := LookUp(c.conn, url);
    match look
    case Closed => c.(conn := conn)
    case Clean => c.(conn := Deliver(conn, url))
    case Dirty => c.(conn := conn, pending := Asked(url, IdOf(c.conn, url)))
  }

  ghost function AfterServe(w: World, c: Client): Client
    requires c.pending.Asked?
  {
    c.(pending := Fetched(c.pending.url, c.pending.id, Find(w.server.docs, c.pending.id), Stamp(w, c.pending.id)))
  }

  function AfterStore(c: Client): Client
    requires c.pending.Fetched?
  {
    var p := c.pending;
    var conn := StoreAnswer(c.conn, p.url, p.answer);
    if p.answer.Some?
    then c.(pending := Idle, conn := Deliver(conn, p.url), cacheStamp := c.cacheStamp[p.url := p.stamp])
    else c.(pending := Idle, conn := conn)
  }

  /** The published messages that a client with subscriptions `subs` gets. */
  function Published(w: World, order: seq<Id>, subs: multiset<Id>): seq<Message>
    requires forall id | id in order :: id in w.server.queue
  {
    if order == [] then []
    else
      var rest := Published(w, order[1..], subs);
      if order[0] in subs then [Message(order[0], w.server.queue[order[0]], Stamp(w, order[0]))] + rest else rest
  }

  function AfterFlush(w: World, order: seq<Id>, c: Client): Client
    requires forall id | id in order :: id in w.server.queue
  {
    c.(inbox := c.inbox + Published(w, order, c.conn.subs))
  }

  ghost function Do(s: Sys, st: Step): Sys
    requires Enabled(s, st)
  {
    match st
    case Call(c, cmd, watch) =>
      var w := Move(s.world, cmd);
      Sys(w, seq(|s.clients|, i requires 0 <= i < |s.clients| =>
        if i == c then AfterCall(Observe(w, s.clients[c]), cmd, Apply(s.world.server, cmd).1, watch)
        else Observe(w, s.clients[i])))
    case Return(c) => s.(clients := s.clients[c := AfterReturn(s.clients[c])])
    case Close(c, url) => s.(clients := s.clients[c := s.clients[c].(conn := LetGo(s.clients[c].conn, url))])
    case TakeOver(c) => s.(clients := s.clients[c := s.clients[c].(conn := TakeHandover(s.clients[c].conn))])
    case Flush(order) =>
      Sys(s.world.(server := s.world.server.(queue := map[])),
          seq(|s.clients|, i requires 0 <= i < |s.clients| => AfterFlush(s.world, order, s.clients[i])))
    case Read(c) => s.(clients := s.clients[c := AfterRead(s.clients[c])])
    case Look(c, url) => s.(clients := s.clients[c := AfterLook(s.clients[c], url)])
    case Serve(c) => s.(clients := s.clients[c := AfterServe(s.world, s.clients[c])])
    case Store(c) => s.(clients := s.clients[c := AfterStore(s.clients[c])])
  }

  ghost predicate Init(s: Sys) {
    && s.world == World(Initial(), map[1 := []], map[1 := 0], 0)
    && (forall i | 0 <= i < |s.clients| :: s.clients[i] == Client(NewConnection(), [], Idle, map[], map[], None))
  }

  /** A run: states joined by steps. */
  ghost predicate Run(states: seq<Sys>, steps: seq<Step>) {
    && |states| == |steps| + 1
    && Init(states[0])
    && (forall i | 0 <= i < |steps| :: Enabled(states[i], steps[i]) && states[i + 1] == Do(states[i], steps[i]))
  }

  /** What a `get_value` that returns in this step gives its caller. */
  datatype Got = Got(c: nat, url: string, ok: bool, value: Option<Doc>, stamp: nat)

  function StampOf(c: Client, url: string): nat {
    if url in c.cacheStamp then c.cacheStamp[url] else 0
  }

  function Result(s: Sys, st: Step): Option<Got> {
    match st
    case Look(c, url) =>
      if c >= |s.clients| then None
      else
        var (conn, look) := LookUp(s.clients[c].conn, url);
        (match look
         case Closed => Some(Got(c, url, false, None, 0))
         case Clean => Some(Got(c, url, true, Cached(conn, url), StampOf(s.clients[c], url)))
         case Dirty => None)
    case Store(c) =>
      if c >= |s.clients| || !s.clients[c].pending.Fetched? then None
      else
        var p := s.clients[c].pending;
        Some(Got(c, p.url, p.answer.Some?, p.answer, p.stamp))
    case _ => None
  }
}
