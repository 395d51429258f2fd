/** The other flush that does harm: a removal heard before an answer is taken.  The client is
    subscribed twice, as the advert constructor leaves it, so that it stays subscribed. */
module GoneRead {
  import opened Paths
  import opened Options
  import opened AdvertStore
  import opened ConnectionState
  import opened CacheProtocol
  import opened CacheInvariant
  import opened CacheCoherence
  import opened CacheTheorems
  import opened StaleRead

  // ------------------------------------------------------------------ from any state

  /** Of a flush, a client gets the notice of `id` only if it subscribes to nothing else in it. */
  lemma {:induction false} OnePublished(w: World, order: seq<Id>, subs: multiset<Id>, id: Id)
    requires forall i | i in order :: i in w.server.queue
    requires forall i, j | 0 <= i < j < |order| :: order[i] != order[j]
    requires id in subs && forall i | i in order && i != id :: i !in subs
    ensures Published(w, order, subs) == if id in order then [Message(id, w.server.queue[id], Stamp(w, id))] else []
  {
    if order != [] {
      OnePublished(w, order[1..], subs, id);
      assert order[0] == id ==> id !in order[1..];
    }
  }

  /** A client with an untaken answer of an attribute call hears that the node is gone: the flag that
      goes comes back with the answer, and with two subscriptions one stays. */
  lemma RemovalForgotten(w: World, order: seq<Id>, c: Client, url: string, id: Id)
    requires Enumerates(order, w.server.queue) && id in w.server.queue && w.server.queue[id] == Removed
    requires c.inbox == [] && forall i | i in w.server.queue && i != id :: i !in c.conn.subs
    requires c.pending == Answered(url, id, false) && c.conn.subs[id] >= 2
    ensures AfterFlush(w, order, c).inbox == [Message(id, Removed, Stamp(w, id))]
    ensures var c' := AfterReturn(AfterRead(AfterFlush(w, order, c)));
            && c'.inbox == [] && c'.pending == Idle && IdOf(c'.conn, url) == id && id in c'.conn.subs
            && c'.conn.updateMap == c.conn.updateMap[id := true] && c'.conn.nodeMap == c.conn.nodeMap
  {
    OnePublished(w, order, c.conn.subs, id);
    var c1 := AfterRead(AfterFlush(w, order, c));
    assert c1.conn.updateMap[id := true] == c.conn.updateMap[id := true];
  }

  /** The first read then fails, and every read after it succeeds with the document of a node that
      is gone. */
  lemma GoneIsRead(c: Connection, url: string, docs: Docs)
    requires var id := IdOf(c, url); id in c.updateMap && c.updateMap[id] && !Live(docs, id)
    ensures var (c1, ok, _) := GetValue(c, url, docs);
            && !ok
            && var (c2, ok2, value) := GetValue(c1, url, docs);
               ok2 && value == Cached(c, url) && GetValue(c2, url, docs) == (c2, true, value)
  {
    var id := IdOf(c, url);
    var c1 := GetValue(c, url, docs).0;
    var c2 := GetValue(c1, url, docs).0;
    assert c2.idMap[url := id] == c2.idMap && c2.updateMap[id := false] == c2.updateMap;
    assert c2.nodeMap[url := Cached(c, url)] == c2.nodeMap;
  }

  // ------------------------------------------------------------------ a run

  const NODE := "/a"

  type Attributes = Option<map<string, Value>>

  const SET: Attributes := Some(map["k" := Scalar("v")])

  function Leaf(attributes: Attributes): Doc {
    Doc(2, NODE, "a", false, [], attributes, None)
  }

  function Tree(attributes: Attributes): Docs {
    map[[] := Doc(1, "/", "", true, [Entry("a", false)], None, None), ["a"] := Leaf(attributes)]
  }

  /** The server once the node is there, and once it is gone again. */
  function With(attributes: Attributes, queue: map<Id, Kind>): Server {
    Server(Tree(attributes), queue, 3)
  }

  function WithoutNode(queue: map<Id, Kind>): Server {
    Server(Initial().docs, queue, 3)
  }

  lemma NodePath()
    ensures Canonical(NODE) && GetPathArray(NODE) == ["a"] && PathString(["a"]) == NODE
  {
    ArrayRoundTrip(["a"]);
    assert Join(["a"]) == "a";
  }

  lemma CreateNode()
    ensures Apply(Initial(), Create(NODE, false)) == (With(None, map[1 := Updated]), OkId(2))
  {
    NodePath();
    var e := EffectOf(Initial(), Create(NODE, false));
    var root := Initial().docs[[]];
    assert Front(["a"]) == [] && Last(["a"]) == "a" && [] + [Entry("a", false)] == [Entry("a", false)];
    assert e.docs == Tree(None);
    assert Initial().queue + e.notices == map[1 := Updated];
  }

  lemma OpenNode()
    ensures Apply(With(None, map[1 := Updated]), Open(NODE)) == (With(None, map[1 := Updated]), OkId(2))
  {
    NodePath();
    assert map[1 := Updated] + map[] == map[1 := Updated];
  }

  lemma SetNode()
    ensures Apply(With(None, map[1 := Updated]), SetAttribute(NODE, "k", Scalar("v"))) ==
            (With(SET, map[1 := Updated, 2 := Updated]), OkId(2))
  {
    NodePath();
    var s := With(None, map[1 := Updated]);
    var e := EffectOf(s, SetAttribute(NODE, "k", Scalar("v")));
    assert e.docs == Tree(SET);
    assert s.queue + e.notices == map[1 := Updated, 2 := Updated];
  }

  lemma OnlyNode()
    ensures Subtree(Tree(SET), ["a"]) == {["a"]} && IdsOf(Tree(SET), {["a"]}) == {2}
  {}

  lemma RemoveNode()
    ensures Apply(With(SET, map[1 := Updated, 2 := Updated]), Remove(NODE)) ==
            (WithoutNode(map[1 := Updated, 2 := Removed]), OkRemoved)
  {
    hide Subtree, IdsOf;
    NodePath();
    var s := With(SET, map[1 := Updated, 2 := Updated]);
    var e := EffectOf(s, Remove(NODE));
    OnlyNode();
    assert Front(["a"]) == [] && AdvertStore.Without([Entry("a", false)], "a") == [];
    assert e.docs == Initial().docs;
    assert e.notices == map[1 := Updated, 2 := Removed];
    assert s.queue + e.notices == map[1 := Updated, 2 := Removed];
  }

  /** Two clients; the reader is client 0, and what varies during the run. */
  ghost predicate Here(s: Sys, server: Server, conn: Connection, mail: seq<Message>, pending: Pending,
                       other: Pending) {
    && GoodWorld(s.world) && s.world.server == server && |s.clients| == 2
    && s.clients[0].conn == conn && s.clients[0].inbox == mail && s.clients[0].pending == pending
    && s.clients[1].pending == other
  }

  /** Client 0 makes a call and is served. */
  lemma Calls(s: Sys, server: Server, conn: Connection, cmd: Command, server': Server, id: Id)
    requires Here(s, server, conn, [], Idle, Idle) && Canonical(cmd.path) && Apply(server, cmd) == (server', OkId(id))
    ensures Enabled(s, Call(0, cmd, false))
    ensures Here(Do(s, Call(0, cmd, false)), server', conn, [], Answered(cmd.path, id, Subscribes(cmd)), Idle)
  {
    hide Move, Apply, Canonical, GoodWorld;
    MoveGood(s.world, cmd);
    MoveServer(s.world, cmd);
  }

  /** Client 1 removes the node. */
  lemma Removes(s: Sys, server: Server, conn: Connection, pending: Pending, server': Server)
    requires Here(s, server, conn, [], pending, Idle) && Apply(server, Remove(NODE)) == (server', OkRemoved)
    ensures Enabled(s, Call(1, Remove(NODE), false))
    ensures Here(Do(s, Call(1, Remove(NODE), false)), server', conn, [], pending, RemoveAnswered(NODE))
  {
    hide Move, Apply, Canonical, GoodWorld;
    NodePath();
    MoveGood(s.world, Remove(NODE));
    MoveServer(s.world, Remove(NODE));
  }

  lemma Returns(s: Sys, server: Server, conn: Connection, id: Id, subscribe: bool, other: Pending)
    requires Here(s, server, conn, [], Answered(NODE, id, subscribe), other)
    ensures Enabled(s, Return(0))
    ensures Here(Do(s, Return(0)), server, TakeAnswer(conn, NODE, id, subscribe), [], Idle, other)
  {
    hide GoodWorld;
  }

  lemma TakesOver(s: Sys, server: Server, conn: Connection)
    requires Here(s, server, conn, [], Idle, Idle) && conn.pipe != []
    ensures Enabled(s, TakeOver(0)) && Here(Do(s, TakeOver(0)), server, TakeHandover(conn), [], Idle, Idle)
  {
    hide GoodWorld;
  }

  /** A `get_value` with a dirty flag, in its three steps. */
  lemma Fetches(s: Sys, server: Server, conn: Connection, other: Pending)
    requires Here(s, server, conn, [], Idle, other) && IdOf(conn, NODE) == 2 && conn.updateMap == map[2 := true]
    ensures Enabled(s, Look(0, NODE))
    ensures var s1 := Do(s, Look(0, NODE));
            && Enabled(s1, Serve(0))
            && var s2 := Do(s1, Serve(0));
               && Enabled(s2, Store(0))
               && var (after, ok, _) := GetValue(conn, NODE, server.docs);
                  && Here(Do(s2, Store(0)), server, after, [], Idle, other)
                  && Result(s2, Store(0)).Some? && Result(s2, Store(0)).value.ok == ok
  {
    hide GoodWorld, Find, Canonical;
    NodePath();
  }

  /** The flush, which reaches client 0 with the removal only. */
  lemma Flushes(s: Sys, server: Server, conn: Connection, pending: Pending, other: Pending)
    requires Here(s, server, conn, [], pending, other) && server.queue == map[1 := Updated, 2 := Removed]
    requires conn.subs == multiset{2, 2}
    ensures Enabled(s, Flush([1, 2]))
    ensures Here(Do(s, Flush([1, 2])), server.(queue := map[]), conn, [Message(2, Removed, Stamp(s.world, 2))],
                 pending, other)
  {
    hide GoodWorld;
    assert Enumerates([1, 2], server.queue);
    OnePublished(s.world, [1, 2], conn.subs, 2);
    FlushGood(s.world);
  }

  lemma Hears(s: Sys, server: Server, conn: Connection, stamp: nat, pending: Pending, other: Pending)
    requires Here(s, server, conn, [Message(2, Removed, stamp)], pending, other)
    ensures Enabled(s, Read(0)) && Here(Do(s, Read(0)), server, Receive(conn, 2, Removed), [], pending, other)
  {
    hide GoodWorld;
  }

  /** The connection of client 0, once it has the id. */
  function Reading(flag: bool, cached: bool, subs: multiset<Id>, pipe: seq<Handover>): Connection {
    Connection(map[NODE := 2], map[2 := flag], if cached then map[NODE := Some(Leaf(None))] else map[], subs, pipe)
  }

  /** What client 0 does as a constructor and a first read; the attribute it sets; the removal. */
  function Steps(): seq<Step> {
    [Call(0, Create(NODE, false), false), Return(0), Call(0, Open(NODE), false), Return(0), TakeOver(0), TakeOver(0),
     Look(0, NODE), Serve(0), Store(0), Call(0, SetAttribute(NODE, "k", Scalar("v")), false),
     Call(1, Remove(NODE), false), Flush([1, 2]), Read(0), Return(0), Look(0, NODE), Serve(0), Store(0)]
  }

  /** The first steps of the run, up to state `s`. */
  ghost predicate Leads(states: seq<Sys>, s: Sys) {
    && 0 < |states| <= |Steps()| + 1 && states[0] == Start() && states[|states| - 1] == s
    && forall i | 0 <= i < |states| - 1 :: Enabled(states[i], Steps()[i]) && states[i + 1] == Do(states[i], Steps()[i])
  }

  lemma Extend(states: seq<Sys>, s: Sys, st: Step) returns (states': seq<Sys>, t: Sys)
    requires Leads(states, s) && |states| <= |Steps()| && Steps()[|states| - 1] == st && Enabled(s, st)
    ensures t == Do(s, st) && Leads(states', t) && |states'| == |states| + 1 && states <= states'
  {
    hide Enabled, Do, Steps, Start;
    t := Do(s, st);
    states' := states + [t];
    forall i | 0 <= i < |states'| - 1 ensures Enabled(states'[i], Steps()[i]) && states'[i + 1] == Do(states'[i], Steps()[i]) {
      assert states'[i] == states[i];
    }
  }

  lemma AtStart()
    ensures Here(Start(), Initial(), NewConnection(), [], Idle, Idle) && Leads([Start()], Start())
  {
    StartGood();
  }

  /** A call that is served and answered. */
  lemma CallDone(states: seq<Sys>, s: Sys, server: Server, conn: Connection, cmd: Command, server': Server)
    returns (states': seq<Sys>, t: Sys)
    requires Leads(states, s) && Here(s, server, conn, [], Idle, Idle)
    requires cmd.path == NODE && Apply(server, cmd) == (server', OkId(2))
    requires |states| < |Steps()| && Steps()[|states| - 1] == Call(0, cmd, false) && Steps()[|states|] == Return(0)
    ensures Leads(states', t) && |states'| == |states| + 2 && states <= states'
    ensures Here(t, server', TakeAnswer(conn, NODE, 2, Subscribes(cmd)), [], Idle, Idle)
  {
    hide *;
    NodePath();
    Calls(s, server, conn, cmd, server', 2);
    states', t := Extend(states, s, Call(0, cmd, false));
    Returns(t, server', conn, 2, Subscribes(cmd), Idle);
    states', t := Extend(states', t, Return(0));
  }

  lemma Fetched(states: seq<Sys>, s: Sys, server: Server, conn: Connection, other: Pending)
    returns (states': seq<Sys>, t: Sys)
    requires Leads(states, s) && Here(s, server, conn, [], Idle, other)
    requires IdOf(conn, NODE) == 2 && conn.updateMap == map[2 := true]
    requires |states| + 1 < |Steps()| && Steps()[|states| - 1] == Look(0, NODE)
    requires Steps()[|states|] == Serve(0) && Steps()[|states| + 1] == Store(0)
    ensures Leads(states', t) && |states'| == |states| + 3 && states <= states'
    ensures var (after, ok, _) := GetValue(conn, NODE, server.docs);
            && Here(t, server, after, [], Idle, other)
            && Result(states'[|states| + 1], Store(0)).Some? && Result(states'[|states| + 1], Store(0)).value.ok == ok
  {
    hide Leads, Steps, Here, GetValue, Enabled, Do, Result, IdOf;
    Fetches(s, server, conn, other);
    states', t := Extend(states, s, Look(0, NODE));
    states', t := Extend(states', t, Serve(0));
    var before := states';
    LastState(states', t);
    states', t := Extend(states', t, Store(0));
    assert states'[|states| + 1] == before[|states| + 1];
  }

  lemma LastState(states: seq<Sys>, s: Sys)
    requires Leads(states, s)
    ensures states != [] && states[|states| - 1] == s
  {}

  /** The node is made and opened. */
  lemma Opened() returns (states: seq<Sys>, t: Sys)
    ensures Leads(states, t) && |states| == 5
    ensures Here(t, With(None, map[1 := Updated]), Reading(true, false, multiset{}, [Sub(2), Sub(2)]), [], Idle, Idle)
  {
    hide Do, Enabled, Apply, Leads, Here, Start, TakeAnswer, Reading, With, Initial, NewConnection;
    CreateNode();
    OpenNode();
    AtStart();
    BothTaken();
    var server := With(None, map[1 := Updated]);
    states, t := CallDone([Start()], Start(), Initial(), NewConnection(), Create(NODE, false), server);
    states, t := CallDone(states, t, server, Reading(true, false, multiset{}, [Sub(2)]), Open(NODE), server);
  }

  lemma BothTaken()
    ensures TakeAnswer(NewConnection(), NODE, 2, true) == Reading(true, false, multiset{}, [Sub(2)])
    ensures TakeAnswer(Reading(true, false, multiset{}, [Sub(2)]), NODE, 2, true) ==
            Reading(true, false, multiset{}, [Sub(2), Sub(2)])
  {}

  /** The reader thread takes over both subscriptions, and the node is read. */
  lemma Subscribed() returns (states: seq<Sys>, t: Sys)
    ensures Leads(states, t) && |states| == 10
    ensures Here(t, With(None, map[1 := Updated]), Reading(false, true, multiset{2, 2}, []), [], Idle, Idle)
  {
    hide Do, Enabled, GoodWorld, Leads, Here, GetValue;
    var server := With(None, map[1 := Updated]);
    states, t := Opened();
    TakesOver(t, server, Reading(true, false, multiset{}, [Sub(2), Sub(2)]));
    states, t := Extend(states, t, TakeOver(0));
    assert TakeHandover(Reading(true, false, multiset{}, [Sub(2), Sub(2)])) == Reading(true, false, multiset{2}, [Sub(2)]);
    TakesOver(t, server, Reading(true, false, multiset{2}, [Sub(2)]));
    states, t := Extend(states, t, TakeOver(0));
    assert TakeHandover(Reading(true, false, multiset{2}, [Sub(2)])) == Reading(true, false, multiset{2, 2}, []);
    states, t := Fetched(states, t, server, Reading(true, false, multiset{2, 2}, []), Idle);
    FirstRead();
  }

  lemma FirstRead()
    ensures GetValue(Reading(true, false, multiset{2, 2}, []), NODE, Tree(None)) ==
            (Reading(false, true, multiset{2, 2}, []), true, Some(Leaf(None)))
  {
    assert Tree(None)[["a"]] == Leaf(None);
    assert Live(Tree(None), 2) && forall k | k in Tree(None) && Tree(None)[k].id == 2 :: k == ["a"];
    assert Find(Tree(None), 2) == Some(Leaf(None));
    assert map[NODE := 2][NODE := 2] == map[NODE := 2] && map[2 := true][2 := false] == map[2 := false];
    assert map[NODE := Some(Leaf(None))][NODE := Some(Leaf(None))] == map[NODE := Some(Leaf(None))];
  }

  lemma LastRead()
    ensures GetValue(Reading(true, true, multiset{2}, []), NODE, Initial().docs) ==
            (Reading(false, true, multiset{2}, []), false, None)
  {
    assert !Live(Initial().docs, 2);
    assert map[NODE := 2][NODE := 2] == map[NODE := 2] && map[2 := true][2 := false] == map[2 := false];
  }

  /** An attribute is set, and before its caller takes the answer the node is removed. */
  lemma Removed0() returns (states: seq<Sys>, t: Sys)
    ensures Leads(states, t) && |states| == 12
    ensures Here(t, WithoutNode(map[1 := Updated, 2 := Removed]), Reading(false, true, multiset{2, 2}, []), [],
                 Answered(NODE, 2, false), RemoveAnswered(NODE))
  {
    hide Do, Enabled, Apply, Canonical, GetPathArray, GoodWorld, Leads, Here;
    NodePath();
    SetNode();
    RemoveNode();
    states, t := Subscribed();
    var server, conn := With(SET, map[1 := Updated, 2 := Updated]), Reading(false, true, multiset{2, 2}, []);
    Calls(t, With(None, map[1 := Updated]), conn, SetAttribute(NODE, "k", Scalar("v")), server, 2);
    states, t := Extend(states, t, Call(0, SetAttribute(NODE, "k", Scalar("v")), false));
    Removes(t, server, conn, Answered(NODE, 2, false), WithoutNode(map[1 := Updated, 2 := Removed]));
    states, t := Extend(states, t, Call(1, Remove(NODE), false));
  }

  /** The flush does harm: it publishes the removal to a client that holds an answer and subscribes twice. */
  lemma HarmHere(s: Sys, conn: Connection, other: Pending)
    requires Here(s, WithoutNode(map[1 := Updated, 2 := Removed]), conn, [], Answered(NODE, 2, false), other)
    requires conn.subs == multiset{2, 2} && conn.pipe == []
    ensures !Prompt(s, Flush([1, 2]), 0, 2)
  {
    hide GoodWorld;
    NowIsFind(s.world, 2);
    SettledHarmlessIff(s.world, s.clients[0], 2);
    assert !Live(Initial().docs, 2);
  }

  /** The removal is published and heard, and then the answer is taken. */
  lemma Forgotten() returns (states: seq<Sys>, t: Sys)
    ensures Leads(states, t) && |states| == 15 && !Prompt(states[11], Flush([1, 2]), 0, 2)
    ensures Here(t, WithoutNode(map[]), Reading(true, true, multiset{2}, []), [], Idle, RemoveAnswered(NODE))
  {
    hide Do, Enabled, GoodWorld, Leads, Here, Prompt;
    states, t := Removed0();
    var conn, p, q := Reading(false, true, multiset{2, 2}, []), Answered(NODE, 2, false), RemoveAnswered(NODE);
    LastState(states, t);
    HarmHere(t, conn, q);
    Flushes(t, WithoutNode(map[1 := Updated, 2 := Removed]), conn, p, q);
    var stamp := Stamp(t.world, 2);
    states, t := Extend(states, t, Flush([1, 2]));
    Hears(t, WithoutNode(map[]), conn, stamp, p, q);
    states, t := Extend(states, t, Read(0));
    var after := Receive(conn, 2, Removed);
    assert after == Reading(false, true, multiset{2}, []).(updateMap := map[]);
    Returns(t, WithoutNode(map[]), after, 2, false, q);
    states, t := Extend(states, t, Return(0));
    assert TakeAnswer(after, NODE, 2, false) == Reading(true, true, multiset{2}, []);
  }

  /** The node of client 0's URL is gone and nothing about it is on its way, but the client has it open
      and subscribed, with a document in its cache and a clear flag. */
  ghost predicate Gone(s: Sys) {
    |s.clients| > 0 &&
    var c := s.clients[0];
    var id := IdOf(c.conn, NODE);
    && !Live(s.world.server.docs, id) && Settled(s.world, c, id) && Watched(c, id)
    && id in c.conn.updateMap && !c.conn.updateMap[id] && Cached(c.conn, NODE).Some?
  }

  /** Then a read succeeds at once with that document, and the node stays gone and open. */
  lemma GoneStays(s: Sys)
    requires Gone(s)
    ensures Enabled(s, Look(0, NODE)) && Gone(Do(s, Look(0, NODE)))
    ensures Cached(Do(s, Look(0, NODE)).clients[0].conn, NODE) == Cached(s.clients[0].conn, NODE)
    ensures Result(s, Look(0, NODE)).Some? && Result(s, Look(0, NODE)).value.ok
    ensures Result(s, Look(0, NODE)).value.value == Cached(s.clients[0].conn, NODE)
  {
    hide Live;
    NodePath();
  }

  /** However often it reads. */
  lemma {:induction false} GoneForEver(states: seq<Sys>, i: nat)
    requires i < |states| && Gone(states[0])
    requires forall j | 0 <= j < |states| - 1 ::
               Enabled(states[j], Look(0, NODE)) && states[j + 1] == Do(states[j], Look(0, NODE))
    ensures Gone(states[i]) && Cached(states[i].clients[0].conn, NODE) == Cached(states[0].clients[0].conn, NODE)
  {
    if i > 0 {
      GoneForEver(states, i - 1);
      GoneStays(states[i - 1]);
    }
  }

  lemma HereIsGone(s: Sys, other: Pending)
    requires Here(s, WithoutNode(map[]), Reading(false, true, multiset{2}, []), [], Idle, other)
    ensures Gone(s)
  {
    hide GoodWorld;
    assert !Live(Initial().docs, 2);
  }

  lemma LeadsIsRun(states: seq<Sys>, s: Sys)
    requires Leads(states, s) && |states| == |Steps()| + 1
    ensures Run(states, Steps()) && states[|Steps()|] == s
  {
    hide Enabled, Do;
  }

  /** A run, with one harmful flush, after which a read fails once and all that follow succeed with the
      document of a node that is gone. */
  lemma UntakenAnswerGoesStale() returns (states: seq<Sys>)
    ensures Run(states, Steps()) && !Prompt(states[11], Steps()[11], 0, 2) && Gone(states[17])
    ensures Result(states[16], Steps()[16]).Some? && !Result(states[16], Steps()[16]).value.ok
  {
    hide Run, Do, Enabled, GoodWorld, Leads, Here, Prompt, GetValue, Gone, Result;
    var t;
    states, t := Forgotten();
    var before := states;
    LastRead();
    states, t := Fetched(states, t, WithoutNode(map[]), Reading(true, true, multiset{2}, []), RemoveAnswered(NODE));
    assert states[11] == before[11];
    HereIsGone(t, RemoveAnswered(NODE));
    LeadsIsRun(states, t);
  }
}
