/** The invariant of the cache protocol that holds whatever the timing. */
module CacheInvariant {
  import opened Paths
  import opened Options
  import opened AdvertStore
  import opened AdvertCommands
  import opened ConnectionState
  import opened CacheProtocol

  // ------------------------------------------------------------------ one client

  /** Every id the client has heard of was given out, and nothing it was told is from the future. */
  ghost predicate Known(w: World, c: Client) {
    && (forall id | id in c.conn.updateMap :: id in w.born)
    && (forall id | id in c.conn.subs :: id in w.born)
    && (forall h | h in c.conn.pipe && h.Sub? :: h.id in w.born)
    && (forall m | m in c.inbox :: m.id in w.born && m.stamp <= Stamp(w, m.id))
    && (forall id | id in c.announced :: c.announced[id] <= Stamp(w, id))
  }

  /** `url` is canonical and `id` was given out for its path. */
  ghost predicate Names(w: World, url: string, id: Id) {
    Canonical(url) && id in w.born && w.born[id] == GetPathArray(url)
  }

  ghost predicate PendingOk(w: World, c: Client) {
    match c.pending
    case Idle => true
    case Asked(url, id) => Names(w, url, id) && IdOf(c.conn, url) == id
    case Fetched(url, id, answer, stamp) =>
      && Names(w, url, id) && IdOf(c.conn, url) == id
      && (Alive(w, id) ==> answer.Some?)
      && (answer.Some? ==> StampOf(c, url) <= stamp && NotNewer(w, url, stamp))
    case Answered(url, id, _) => Names(w, url, id)
    case RemoveAnswered(url) => Canonical(url)
  }

  predicate Fetching(c: Client, url: string) {
    (c.pending.Asked? || c.pending.Fetched?) && c.pending.url == url
  }

  /** `stamp` is no later than the last change of what is stored at `url` now. */
  ghost predicate NotNewer(w: World, url: string, stamp: nat) {
    && stamp <= w.clock
    && (GetPathArray(url) in w.server.docs ==> stamp <= Stamp(w, w.server.docs[GetPathArray(url)].id))
  }

  ghost predicate UrlOk(w: World, c: Client, url: string) {
    url in c.conn.idMap && c.conn.idMap[url] != NO_ID ==> Names(w, url, c.conn.idMap[url])
  }

  /** A clear flag on a living node means that the cache is as new as every notice delivered for it,
      or that a fetch is on its way whose answer will be. */
  ghost predicate FreshAt(w: World, c: Client, url: string) {
    var id := IdOf(c.conn, url);
    Alive(w, id) && id in c.conn.updateMap && !c.conn.updateMap[id] && !(c.pending.Asked? && c.pending.url == url) ==>
      if c.pending.Fetched? && c.pending.url == url then AnnouncedAt(c, id) <= c.pending.stamp
      else Cached(c.conn, url).Some? && AnnouncedAt(c, id) <= StampOf(c, url)
  }

  ghost predicate AtUrl(w: World, c: Client, url: string) {
    UrlOk(w, c, url) && FreshAt(w, c, url) && (url in c.cacheStamp ==> NotNewer(w, url, c.cacheStamp[url]))
  }

  /** While the observed value is there, what the client fetches or has cached since shows it. */
  ghost predicate OwnOk(w: World, c: Client) {
    c.own.Some? && c.own.value.hold ==>
      var o := c.own.value;
      && Names(w, o.url, o.id) && Shows(Now(w, o.id), o.key, o.val)
      && (c.pending.Fetched? && c.pending.url == o.url ==> Shows(c.pending.answer, o.key, o.val))
      && (c.pending.Answered? && c.pending.url == o.url ==> c.pending.id == o.id)
      && (!(c.pending.Answered? && c.pending.url == o.url) ==>
            && IdOf(c.conn, o.url) == o.id
            && (o.id in c.conn.updateMap && !c.conn.updateMap[o.id] && !Fetching(c, o.url) ==>
                  Shows(Cached(c.conn, o.url), o.key, o.val)))
  }

  ghost predicate ClientOk(w: World, c: Client) {
    Known(w, c) && PendingOk(w, c) && OwnOk(w, c) && forall url :: AtUrl(w, c, url)
  }

  ghost predicate Inv(s: Sys) {
    GoodWorld(s.world) && forall i | 0 <= i < |s.clients| :: ClientOk(s.world, s.clients[i])
  }

  /** Canonical URLs of one id are one URL. */
  lemma OneUrl(w: World, url: string, other: string, id: Id)
    requires Names(w, url, id) && Names(w, other, id)
    ensures url == other
  {}

  // ------------------------------------------------------------------ steps of one client alone

  lemma ReturnKeepsUrl(w: World, c: Client, u: string)
    requires PendingOk(w, c) && (c.pending.Answered? || c.pending.RemoveAnswered?)
    requires AtUrl(w, c, u) && AtUrl(w, c, c.pending.url) && NO_ID !in w.born
    ensures AtUrl(w, AfterReturn(c), u)
  {
    hide Canonical, GetPathArray, NotNewer;
  }

  lemma ReturnKeepsOwn(w: World, c: Client)
    requires PendingOk(w, c) && OwnOk(w, c) && (c.pending.Answered? || c.pending.RemoveAnswered?)
    ensures OwnOk(w, AfterReturn(c))
  {
    hide Canonical, GetPathArray;
  }

  lemma ReturnKeeps(w: World, c: Client)
    requires GoodWorld(w) && ClientOk(w, c) && (c.pending.Answered? || c.pending.RemoveAnswered?)
    ensures ClientOk(w, AfterReturn(c))
  {
    hide GoodWorld, Canonical, GetPathArray, AtUrl, OwnOk;
    NoIdIsNone(w);
    ReturnKeepsOwn(w, c);
    forall u ensures AtUrl(w, AfterReturn(c), u) {
      ReturnKeepsUrl(w, c, u);
    }
  }

  lemma CloseKeeps(w: World, c: Client, url: string)
    requires GoodWorld(w) && ClientOk(w, c) && c.pending.Idle?
    ensures ClientOk(w, c.(conn := LetGo(c.conn, url)))
  {
    hide Canonical, GetPathArray, NotNewer, Valid;
    var c' := c.(conn := LetGo(c.conn, url));
    forall u ensures AtUrl(w, c', u) {
      assert AtUrl(w, c, u);
    }
  }

  /** A hand-over changes the flags and subscriptions only, and sets no flag. */
  ghost predicate FlagsFewer(c: Connection, c': Connection) {
    && c'.idMap == c.idMap && c'.nodeMap == c.nodeMap
    && (forall id | id in c'.updateMap :: id in c.updateMap && c'.updateMap[id] == c.updateMap[id])
  }

  lemma TakeOverShape(w: World, c: Client)
    requires Known(w, c) && c.conn.pipe != []
    ensures FlagsFewer(c.conn, TakeHandover(c.conn))
    ensures Known(w, c.(conn := TakeHandover(c.conn)))
  {
    var c' := c.(conn := TakeHandover(c.conn));
    assert c.conn.pipe[0] in c.conn.pipe;
    assert forall h | h in c'.conn.pipe :: h in c.conn.pipe;
  }

  lemma TakeOverKeeps(w: World, c: Client)
    requires GoodWorld(w) && ClientOk(w, c) && c.conn.pipe != []
    ensures ClientOk(w, c.(conn := TakeHandover(c.conn)))
  {
    hide GoodWorld, Canonical, GetPathArray, NotNewer, Known, TakeHandover;
    var c' := c.(conn := TakeHandover(c.conn));
    TakeOverShape(w, c);
    forall u ensures AtUrl(w, c', u) {
      assert AtUrl(w, c, u);
    }
  }

  lemma ReadKeepsUrl(w: World, c: Client, u: string)
    requires AtUrl(w, c, u) && c.inbox != []
    ensures AtUrl(w, AfterRead(c), u)
  {
    hide Canonical, GetPathArray, NotNewer;
  }

  lemma ReadKeeps(w: World, c: Client)
    requires GoodWorld(w) && ClientOk(w, c) && c.inbox != []
    ensures ClientOk(w, AfterRead(c))
  {
    hide GoodWorld, Canonical, GetPathArray, NotNewer, AtUrl;
    var c' := AfterRead(c);
    assert c.inbox[0] in c.inbox;
    assert forall m | m in c'.inbox :: m in c.inbox;
    forall u ensures AtUrl(w, c', u) {
      ReadKeepsUrl(w, c, u);
    }
  }

  /** All that looking for a flag changes. */
  lemma LookShape(c: Client, url: string)
    requires c.pending.Idle?
    ensures var c', id := AfterLook(c, url), IdOf(c.conn, url);
            && c'.conn.updateMap == (if id in c.conn.updateMap then c.conn.updateMap[id := false] else c.conn.updateMap)
            && c'.conn.pipe == c.conn.pipe && c'.conn.subs == c.conn.subs && c'.inbox == c.inbox
            && c'.cacheStamp == c.cacheStamp && c'.announced == c.announced && c'.own == c.own
            && c'.pending == if id in c.conn.updateMap && c.conn.updateMap[id] then Asked(url, id) else Idle
  {}

  lemma LookReads(c: Client, url: string, u: string)
    requires c.pending.Idle?
    ensures IdOf(AfterLook(c, url).conn, u) == IdOf(c.conn, u)
    ensures Cached(AfterLook(c, url).conn, u) == Cached(c.conn, u)
  {}

  lemma LookKeepsUrl(w: World, c: Client, url: string, u: string)
    requires c.pending.Idle? && Canonical(url) && AtUrl(w, c, u) && AtUrl(w, c, url)
    requires NO_ID !in w.born
    ensures AtUrl(w, AfterLook(c, url), u)
  {
    hide Canonical, GetPathArray, NotNewer, Names, AfterLook;
    LookShape(c, url);
    LookReads(c, url, u);
    LookKeepsUrlOk(w, c, url, u);
    var id := IdOf(c.conn, url);
    if u != url && IdOf(c.conn, u) == id && id != NO_ID {
      OneUrl(w, u, url, id);
    }
  }

  lemma LookKeepsUrlOk(w: World, c: Client, url: string, u: string)
    requires c.pending.Idle? && UrlOk(w, c, u) && UrlOk(w, c, url)
    ensures UrlOk(w, AfterLook(c, url), u)
  {
    hide Names;
  }

  lemma LookKeepsOwn(w: World, c: Client, url: string)
    requires c.pending.Idle? && OwnOk(w, c) && AtUrl(w, c, url) && NO_ID !in w.born
    ensures OwnOk(w, AfterLook(c, url))
  {
    hide Canonical, GetPathArray, NotNewer, AfterLook, Now, Shows;
    LookShape(c, url);
    if c.own.Some? {
      LookReads(c, url, c.own.value.url);
    }
    if c.own.Some? && c.own.value.hold && IdOf(c.conn, url) == c.own.value.id {
      OneUrl(w, url, c.own.value.url, c.own.value.id);
    }
  }

  lemma LookKeeps(w: World, c: Client, url: string)
    requires GoodWorld(w) && ClientOk(w, c) && c.pending.Idle? && Canonical(url)
    ensures ClientOk(w, AfterLook(c, url))
  {
    hide GoodWorld, Canonical, GetPathArray, AtUrl, OwnOk, AfterLook;
    NoIdIsNone(w);
    LookShape(c, url);
    LookKeepsOwn(w, c, url);
    LookReads(c, url, url);
    LookNames(w, c, url);
    forall u ensures AtUrl(w, AfterLook(c, url), u) {
      LookKeepsUrl(w, c, url, u);
    }
  }

  lemma LookNames(w: World, c: Client, url: string)
    requires AtUrl(w, c, url) && Known(w, c) && NO_ID !in w.born
    ensures IdOf(c.conn, url) in c.conn.updateMap ==> Names(w, url, IdOf(c.conn, url))
  {
    hide Names;
  }

  lemma ServeKeeps(w: World, c: Client)
    requires GoodWorld(w) && ClientOk(w, c) && c.pending.Asked?
    ensures ClientOk(w, AfterServe(w, c))
  {
    hide Valid, Canonical, GetPathArray;
    var c', url, id := AfterServe(w, c), c.pending.url, c.pending.id;
    NowIsFind(w, id);
    assert AtUrl(w, c, url);
    forall u ensures AtUrl(w, c', u) {
      assert AtUrl(w, c, u);
    }
  }

  lemma StoreKeeps(w: World, c: Client)
    requires GoodWorld(w) && ClientOk(w, c) && c.pending.Fetched?
    ensures ClientOk(w, AfterStore(c))
  {
    hide GoodWorld, Canonical, GetPathArray, NotNewer;
    var c' := AfterStore(c);
    assert AtUrl(w, c, c.pending.url);
    forall u ensures AtUrl(w, c', u) {
      assert AtUrl(w, c, u);
    }
  }

  // ------------------------------------------------------------------ steps of the server

  lemma NoIdIsNone(w: World)
    requires GoodWorld(w)
    ensures NO_ID !in w.born && !Alive(w, NO_ID)
  {}

  lemma MoveKeepsNotNewer(w: World, cmd: Command, url: string, stamp: nat)
    requires GoodWorld(w) && NotNewer(w, url, stamp)
    ensures NotNewer(Move(w, cmd), url, stamp)
  {
    hide Valid, Canonical, GetPathArray;
    var w', a := Move(w, cmd), GetPathArray(url);
    MoveGood(w, cmd);
    if a in w'.server.docs {
      var id := w'.server.docs[a].id;
      MoveMoved(w, cmd, id);
      NowIsFind(w', id);
    }
  }

  lemma MoveKeepsUrl(w: World, cmd: Command, c: Client, u: string)
    requires GoodWorld(w) && AtUrl(w, c, u)
    ensures AtUrl(Move(w, cmd), Observe(Move(w, cmd), c), u)
  {
    hide GoodWorld, Canonical, GetPathArray, NotNewer, Move;
    MoveMoved(w, cmd, IdOf(c.conn, u));
    MoveGood(w, cmd);
    NoIdIsNone(Move(w, cmd));
    if u in c.cacheStamp {
      MoveKeepsNotNewer(w, cmd, u, c.cacheStamp[u]);
    }
  }

  lemma MoveKeepsPending(w: World, cmd: Command, c: Client)
    requires GoodWorld(w) && PendingOk(w, c)
    ensures PendingOk(Move(w, cmd), Observe(Move(w, cmd), c))
  {
    hide GoodWorld, Canonical, GetPathArray, NotNewer, Move;
    if c.pending.Asked? || c.pending.Fetched? || c.pending.Answered? {
      MoveMoved(w, cmd, c.pending.id);
    }
    if c.pending.Fetched? && c.pending.answer.Some? {
      MoveKeepsNotNewer(w, cmd, c.pending.url, c.pending.stamp);
    }
  }

  lemma MoveKeepsKnown(w: World, cmd: Command, c: Client)
    requires GoodWorld(w) && Known(w, c)
    ensures Known(Move(w, cmd), c)
  {
    hide GoodWorld, Move;
    var w' := Move(w, cmd);
    forall id ensures Stamp(w, id) <= Stamp(w', id) && (id in w.born ==> id in w'.born) {
      MoveGrows(w, cmd, id);
    }
  }

  lemma MoveGrows(w: World, cmd: Command, id: Id)
    requires GoodWorld(w)
    ensures Stamp(w, id) <= Stamp(Move(w, cmd), id) && (id in w.born ==> id in Move(w, cmd).born)
  {
    hide Valid, Move, Now;
    MoveGood(w, cmd);
    MoveMoved(w, cmd, id);
  }

  lemma MoveKeepsOwn(w: World, cmd: Command, c: Client)
    requires GoodWorld(w) && OwnOk(w, c)
    ensures OwnOk(Move(w, cmd), Observe(Move(w, cmd), c))
  {
    hide GoodWorld, Canonical, GetPathArray, Move, Now, Shows, Fetching;
    if c.own.Some? {
      MoveMoved(w, cmd, c.own.value.id);
    }
  }

  lemma MoveKeeps(w: World, cmd: Command, c: Client)
    requires GoodWorld(w) && ClientOk(w, c)
    ensures ClientOk(Move(w, cmd), Observe(Move(w, cmd), c))
  {
    hide GoodWorld, Move, AtUrl, PendingOk, OwnOk;
    MoveKeepsKnown(w, cmd, c);
    MoveKeepsOwn(w, cmd, c);
    MoveKeepsPending(w, cmd, c);
    forall u ensures AtUrl(Move(w, cmd), Observe(Move(w, cmd), c), u) {
      MoveKeepsUrl(w, cmd, c, u);
    }
  }

  /** The answer of a call names the node at its path, which is alive once the call is served. */
  lemma AnswerNames(w: World, cmd: Command)
    requires GoodWorld(w) && Canonical(cmd.path) && Apply(w.server, cmd).1.OkId?
    ensures var id, w' := Apply(w.server, cmd).1.id, Move(w, cmd);
            Names(w', cmd.path, id) && Alive(w', id)
    ensures cmd.SetAttribute? ==> Shows(Now(Move(w, cmd), Apply(w.server, cmd).1.id), cmd.key, cmd.val)
  {
    hide Valid, Canonical, GetPathArray, Move, PathString;
    var a, e := GetPathArray(cmd.path), EffectOf(w.server, cmd);
    MoveGood(w, cmd);
    if cmd.CreateParents? {
      CreateParentsExactly(w.server, cmd.path, cmd.dir);
    }
    assert a in e.docs && e.docs[a].id == e.reply.id;
    assert Move(w, cmd).server.docs == e.docs by {
      MoveServer(w, cmd);
    }
  }

  /** Two living nodes of one path are one node. */
  lemma OneAlive(w: World, id: Id, other: Id)
    requires GoodWorld(w) && Alive(w, id) && Alive(w, other) && w.born[id] == w.born[other]
    ensures id == other
  {}

  lemma CallKeepsOwn(w': World, c: Client, cmd: Command, reply: Reply, watch: bool)
    requires GoodWorld(w') && OwnOk(w', c) && c.pending.Idle?
    requires reply.OkId? ==> Names(w', cmd.path, reply.id) && Alive(w', reply.id)
    requires reply.OkId? && cmd.SetAttribute? ==> Shows(Now(w', reply.id), cmd.key, cmd.val)
    ensures OwnOk(w', AfterCall(c, cmd, reply, watch))
  {
    hide GoodWorld, Canonical, GetPathArray;
    if reply.OkId? && c.own.Some? && c.own.value.hold && c.own.value.url == cmd.path {
      OneAlive(w', reply.id, c.own.value.id);
    }
  }

  lemma CallKeepsUrl(w: World, c: Client, cmd: Command, reply: Reply, watch: bool, u: string)
    requires AtUrl(w, c, u) && c.pending.Idle?
    ensures AtUrl(w, AfterCall(c, cmd, reply, watch), u)
  {
    hide Canonical, GetPathArray, NotNewer, Now;
  }

  lemma CallKeeps(w: World, cmd: Command, c: Client, watch: bool)
    requires GoodWorld(w) && ClientOk(w, c) && c.pending.Idle? && Canonical(cmd.path)
    ensures ClientOk(Move(w, cmd), AfterCall(Observe(Move(w, cmd), c), cmd, Apply(w.server, cmd).1, watch))
  {
    hide GoodWorld, Canonical, GetPathArray, Move, Apply, OwnOk, AtUrl;
    var w' := Move(w, cmd);
    var reply, c1 := Apply(w.server, cmd).1, Observe(w', c);
    MoveGood(w, cmd);
    MoveKeeps(w, cmd, c);
    if reply.OkId? {
      AnswerNames(w, cmd);
    }
    CallKeepsOwn(w', c1, cmd, reply, watch);
    forall u ensures AtUrl(w', AfterCall(c1, cmd, reply, watch), u) {
      CallKeepsUrl(w', c1, cmd, reply, watch, u);
    }
  }

  lemma {:induction false} PublishedMember(w: World, order: seq<Id>, subs: multiset<Id>, m: Message)
    requires forall id | id in order :: id in w.server.queue
    ensures m in Published(w, order, subs) <==>
              m.id in order && m.id in subs && m == Message(m.id, w.server.queue[m.id], Stamp(w, m.id))
  {
    if order != [] {
      PublishedMember(w, order[1..], subs, m);
      assert order == [order[0]] + order[1..];
    }
  }

  function Emptied(w: World): World {
    w.(server := w.server.(queue := map[]))
  }

  lemma FlushKeepsUrl(w: World, order: seq<Id>, c: Client, u: string)
    requires AtUrl(w, c, u) && forall id | id in order :: id in w.server.queue
    ensures AtUrl(Emptied(w), AfterFlush(w, order, c), u)
  {
    hide Canonical, GetPathArray, Published;
  }

  lemma FlushKeeps(w: World, order: seq<Id>, c: Client)
    requires ClientOk(w, c) && forall id | id in order :: id in w.server.queue
    requires forall id | id in w.server.queue :: id in w.born
    ensures ClientOk(Emptied(w), AfterFlush(w, order, c))
  {
    hide Canonical, GetPathArray, AtUrl, Published;
    var w', c' := Emptied(w), AfterFlush(w, order, c);
    forall m | m in c'.inbox ensures m.id in w'.born && m.stamp <= Stamp(w', m.id) {
      PublishedMember(w, order, c.conn.subs, m);
      assert m in c.inbox || m in Published(w, order, c.conn.subs);
    }
    forall u ensures AtUrl(w', c', u) {
      FlushKeepsUrl(w, order, c, u);
    }
  }

  // ------------------------------------------------------------------ the whole system

  lemma InitInv(s: Sys)
    requires Init(s)
    ensures Inv(s)
  {
    InitialValid();
    forall i | 0 <= i < |s.clients| ensures ClientOk(s.world, s.clients[i]) {
      forall url ensures AtUrl(s.world, s.clients[i], url) {}
    }
  }

  lemma StepInv(s: Sys, st: Step)
    requires Inv(s) && Enabled(s, st)
    ensures Inv(Do(s, st))
  {
    hide GoodWorld, ClientOk, Canonical, Move, Apply;
    match st
    case Call(k, cmd, watch) =>
      MoveGood(s.world, cmd);
      forall i | 0 <= i < |s.clients| ensures ClientOk(Do(s, st).world, Do(s, st).clients[i]) {
        if i == k {
          CallKeeps(s.world, cmd, s.clients[k], watch);
        } else {
          MoveKeeps(s.world, cmd, s.clients[i]);
        }
      }
    case Return(k) => ReturnKeeps(s.world, s.clients[k]);
    case Close(k, url) => CloseKeeps(s.world, s.clients[k], url);
    case TakeOver(k) => TakeOverKeeps(s.world, s.clients[k]);
    case Flush(order) =>
      FlushGood(s.world);
      assert Do(s, st).world == Emptied(s.world);
      forall i | 0 <= i < |s.clients| ensures ClientOk(Do(s, st).world, Do(s, st).clients[i]) {
        FlushKeeps(s.world, order, s.clients[i]);
      }
    case Read(k) => ReadKeeps(s.world, s.clients[k]);
    case Look(k, url) => LookKeeps(s.world, s.clients[k], url);
    case Serve(k) => ServeKeeps(s.world, s.clients[k]);
    case Store(k) => StoreKeeps(s.world, s.clients[k]);
  }

  lemma FlushGood(w: World)
    requires GoodWorld(w)
    ensures GoodWorld(Emptied(w)) && forall id | id in w.server.queue :: id in w.born
  {}

  lemma {:induction false} RunInv(states: seq<Sys>, steps: seq<Step>, i: nat)
    requires Run(states, steps) && i < |states|
    ensures Inv(states[i])
  {
    if i == 0 {
      InitInv(states[0]);
    } else {
      RunInv(states, steps, i - 1);
      StepInv(states[i - 1], steps[i - 1]);
    }
  }
}
