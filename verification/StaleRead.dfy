/** A flush that does harm: a run in which the queue is published while a subscription waits in the
    pipe between the two threads of a connection, and what it leads to. */
module StaleRead {
  import opened Paths
  import opened Options
  import opened AdvertStore
  import opened ConnectionState
  import opened CacheProtocol
  import opened CacheInvariant
  import opened CacheCoherence

  const URL := "/"

  function Root(data: Option<string>): Doc {
    Doc(1, "/", "", true, [], None, data)
  }

  function ServerWith(data: Option<string>, queue: map<Id, Kind>): Server {
    Server(map[[] := Root(data)], queue, 2)
  }

  /** The connection of the reader, by what varies during the run. */
  function Reader(flag: bool, cached: bool, subs: multiset<Id>, pipe: seq<Handover>): Connection {
    Connection(map[URL := 1], map[1 := flag], if cached then map[URL := Some(Root(None))] else map[], subs, pipe)
  }

  /** Two clients; the reader is client 0, and nothing is in any inbox. */
  ghost predicate At(s: Sys, server: Server, conn: Connection, pending: Pending, other: Pending) {
    && GoodWorld(s.world) && s.world.server == server && |s.clients| == 2
    && s.clients[0].conn == conn && s.clients[0].pending == pending && s.clients[0].inbox == []
    && s.clients[1].conn.subs == multiset{} && s.clients[1].conn.pipe == []
    && s.clients[1].pending == other && s.clients[1].inbox == []
  }

  lemma UrlIsRoot()
    ensures Canonical(URL) && GetPathArray(URL) == []
  {
    ArrayRoundTrip([]);
  }

  lemma OpenRoot(queue: map<Id, Kind>)
    ensures Apply(ServerWith(None, queue), Open(URL)) == (ServerWith(None, queue), OkId(1))
  {
    UrlIsRoot();
    assert queue + map[] == queue;
  }

  lemma SetRoot(text: string)
    ensures Apply(ServerWith(None, map[]), SetString(URL, text)) == (ServerWith(Some(text), map[1 := Updated]), OkId(1))
  {
    UrlIsRoot();
    var s := ServerWith(None, map[]);
    var e := EffectOf(s, SetString(URL, text));
    assert s.docs[[]] == Root(None) && Root(None).(data := Some(text)) == Root(Some(text));
    assert e == Change(s, [], Root(Some(text)));
    assert e.docs == map[[] := Root(Some(text))];
    assert s.queue + e.notices == map[1 := Updated];
  }

  /** A message published to nobody who is subscribed reaches nobody. */
  lemma PublishedToNone(w: World, id: Id)
    requires id in w.server.queue
    ensures Published(w, [id], multiset{}) == []
  {
    assert [id][1..] == [];
    assert Published(w, [id][1..], multiset{}) == [];
  }

  lemma FindRoot(data: Option<string>, queue: map<Id, Kind>)
    ensures Find(ServerWith(data, queue).docs, 1) == Some(Root(data))
  {
    FindStored(ServerWith(data, queue).docs, 2, []);
  }

  function Start(): Sys {
    var c := Client(NewConnection(), [], Idle, map[], map[], None);
    Sys(World(Initial(), map[1 := []], map[1 := 0], 0), [c, c])
  }

  function Steps(text: string): seq<Step> {
    [Call(0, Open(URL), false), Return(0), Look(0, URL), Serve(0), Store(0),
     Call(1, SetString(URL, text), false), Return(1), Flush([1]), TakeOver(0)]
  }

  lemma StartGood()
    ensures GoodWorld(Start().world)
  {
    InitInv(Start());
  }

  lemma Opened0(s: Sys) returns (t: Sys, states: seq<Sys>)
    requires s == Start()
    ensures |states| == 3 && states[0] == s && states[2] == t
    ensures forall i | 0 <= i < 2 :: Enabled(states[i], Steps("x")[i]) && states[i + 1] == Do(states[i], Steps("x")[i])
    ensures At(t, ServerWith(None, map[]), Reader(true, false, multiset{}, [Sub(1)]), Idle, Idle)
  {
    hide Move, Apply, Canonical, GetPathArray, GoodWorld;
    UrlIsRoot();
    OpenRoot(map[]);
    StartGood();
    MoveGood(s.world, Open(URL));
    MoveServer(s.world, Open(URL));
    var s1 := Do(s, Call(0, Open(URL), false));
    t := Do(s1, Return(0));
    states := [s, s1, t];
  }

  lemma Fetched0(s: Sys) returns (t: Sys, states: seq<Sys>)
    requires At(s, ServerWith(None, map[]), Reader(true, false, multiset{}, [Sub(1)]), Idle, Idle)
    ensures |states| == 4 && states[0] == s && states[3] == t
    ensures forall i | 0 <= i < 3 :: Enabled(states[i], Steps("x")[i + 2]) && states[i + 1] == Do(states[i], Steps("x")[i + 2])
    ensures At(t, ServerWith(None, map[]), Reader(false, true, multiset{}, [Sub(1)]), Idle, Idle)
  {
    hide Move, Apply, Canonical, GetPathArray, GoodWorld;
    UrlIsRoot();
    FindRoot(None, map[]);
    var s1 := Do(s, Look(0, URL));
    assert At(s1, ServerWith(None, map[]), Reader(false, false, multiset{}, [Sub(1)]), Asked(URL, 1), Idle);
    var s2 := Do(s1, Serve(0));
    t := Do(s2, Store(0));
    states := [s, s1, s2, t];
  }

  /** The changed document is not what client 0 has cached under its cleared flag. */
  lemma HarmAt(s: Sys)
    requires At(s, ServerWith(Some("x"), map[1 := Updated]), Reader(false, true, multiset{}, [Sub(1)]), Idle, Idle)
    ensures !Prompt(s, Flush([1]), 0, 1)
  {
    NowIsFind(s.world, 1);
    FindRoot(Some("x"), map[1 := Updated]);
    assert Misses(s.world, s.clients[0], URL);
  }

  lemma Changed(t: Sys) returns (u: Sys, states: seq<Sys>)
    requires At(t, ServerWith(None, map[]), Reader(false, true, multiset{}, [Sub(1)]), Idle, Idle)
    ensures |states| == 5 && states[0] == t && states[4] == u
    ensures forall i | 0 <= i < 4 :: Enabled(states[i], Steps("x")[i + 5]) && states[i + 1] == Do(states[i], Steps("x")[i + 5])
    ensures At(states[2], ServerWith(Some("x"), map[1 := Updated]), Reader(false, true, multiset{}, [Sub(1)]), Idle, Idle)
    ensures At(u, ServerWith(Some("x"), map[]), Reader(false, true, multiset{1}, []), Idle, Idle)
  {
    hide Move, Apply, Canonical, GetPathArray, GoodWorld;
    UrlIsRoot();
    SetRoot("x");
    MoveGood(t.world, SetString(URL, "x"));
    MoveServer(t.world, SetString(URL, "x"));
    var t1 := Do(t, Call(1, SetString(URL, "x"), false));
    assert At(t1, ServerWith(Some("x"), map[1 := Updated]), Reader(false, true, multiset{}, [Sub(1)]), Idle,
              Answered(URL, 1, false));
    var t2 := Do(t1, Return(1));
    assert At(t2, ServerWith(Some("x"), map[1 := Updated]), Reader(false, true, multiset{}, [Sub(1)]), Idle, Idle);
    assert Enumerates([1], t2.world.server.queue);
    PublishedToNone(t2.world, 1);
    FlushGood(t2.world);
    var t3 := Do(t2, Flush([1]));
    assert At(t3, ServerWith(Some("x"), map[]), Reader(false, true, multiset{}, [Sub(1)]), Idle, Idle);
    u := Do(t3, TakeOver(0));
    states := [t, t1, t2, t3, u];
  }

  ghost predicate Quiet(s: Sys) {
    && s.world.server.queue == map[]
    && (forall i | 0 <= i < |s.clients| ::
          s.clients[i].inbox == [] && s.clients[i].conn.pipe == [] && s.clients[i].pending.Idle?)
  }

  /** Nothing is on its way to client 0, which is subscribed and shows something else than the server has. */
  ghost predicate Stale(s: Sys) {
    && Quiet(s) && |s.clients| > 0
    && var c := s.clients[0].conn;
       var (_, ok, value) := GetValue(c, URL, s.world.server.docs);
       && IdOf(c, URL) in c.updateMap && IdOf(c, URL) in c.subs
       && ok && value != Find(s.world.server.docs, IdOf(c, URL))
  }

  /** A stale read returns at once, with the stale document, and changes nothing that matters. */
  lemma StaleStays(s: Sys)
    requires Stale(s)
    ensures Enabled(s, Look(0, URL)) && Stale(Do(s, Look(0, URL)))
    ensures Result(s, Look(0, URL)).Some? && Result(s, Look(0, URL)).value.ok
    ensures Result(s, Look(0, URL)).value.value != Find(s.world.server.docs, IdOf(s.clients[0].conn, URL))
  {
    UrlIsRoot();
  }

  /** So however often the client reads, it reads what is stale. */
  lemma {:induction false} StaleForEver(states: seq<Sys>, i: nat)
    requires i < |states| && Stale(states[0])
    requires forall j | 0 <= j < |states| - 1 :: Enabled(states[j], Look(0, URL)) && states[j + 1] == Do(states[j], Look(0, URL))
    ensures Stale(states[i])
  {
    if i > 0 {
      StaleForEver(states, i - 1);
      StaleStays(states[i - 1]);
    }
  }

  lemma ChangedIsStale(u: Sys)
    requires At(u, ServerWith(Some("x"), map[]), Reader(false, true, multiset{1}, []), Idle, Idle)
    ensures Stale(u)
  {
    FindRoot(Some("x"), map[]);
  }

  /** A run, with one harmful flush, that ends in a stale read. */
  lemma UnpromptFlushGoesStale() returns (states: seq<Sys>)
    ensures Run(states, Steps("x")) && !Prompt(states[7], Steps("x")[7], 0, 1) && Stale(states[9])
  {
    hide Do, Enabled, At, Stale, Prompt;
    var s, t, u, first, second, third;
    s, first := Opened0(Start());
    t, second := Fetched0(s);
    u, third := Changed(t);
    ChangedIsStale(u);
    HarmAt(third[2]);
    states := first + second[1..] + third[1..];
    assert states[2] == s && states[5] == t && states[7] == third[2] && states[9] == u;
    forall i | 0 <= i < 9
      ensures Enabled(states[i], Steps("x")[i]) && states[i + 1] == Do(states[i], Steps("x")[i])
    {
      if i >= 5 {
        assert states[i] == third[i - 5] && states[i + 1] == third[i - 4];
        assert Steps("x")[i - 5 + 5] == Steps("x")[i];
      } else if i >= 2 {
        assert states[i] == second[i - 2] && states[i + 1] == second[i - 1];
        assert Steps("x")[i - 2 + 2] == Steps("x")[i];
      }
    }
  }
}
