/** Cache coherence, client by client and id by id, and exactly which flushes of the queue end it. */
module CacheCoherence {
  import opened Paths
  import opened AdvertStore
  import opened ConnectionState
  import opened CacheProtocol
  import opened CacheInvariant

  /** The client is subscribed to `id`, or has asked its reader thread for it. */
  ghost predicate Watched(c: Client, id: Id) {
    id in c.conn.subs || Sub(id) in c.conn.pipe
  }

  /** A message for `id` is on its way and will not be dropped. */
  ghost predicate Noticed(c: Client, id: Id) {
    id in c.conn.subs && HasMail(c, id)
  }

  /** What `get_value` would show is the server's node, or will be once its fetch is stored. */
  ghost predicate Current(w: World, c: Client, url: string) {
    var id := IdOf(c.conn, url);
    if c.pending.Asked? && c.pending.url == url then true
    else if c.pending.Fetched? && c.pending.url == url then c.pending.answer == Now(w, id)
    else Alive(w, id) && Cached(c.conn, url) == Now(w, id)
  }

  /** Coherence at one URL: the flag is dirty, or a notice is queued or in flight, or a fetch is
      between clear and store with nothing changed since, or the cache equals the server's node. */
  ghost predicate CoveredAt(w: World, c: Client, url: string) {
    var id := IdOf(c.conn, url);
    id in c.conn.updateMap && Watched(c, id) ==>
      c.conn.updateMap[id] || id in w.server.queue || Noticed(c, id) || Current(w, c, url)
  }

  ghost predicate HasMail(c: Client, id: Id) {
    exists m :: m in c.inbox && m.id == id
  }

  ghost predicate RemovalInInbox(c: Client, id: Id) {
    exists m :: m in c.inbox && m.id == id && m.kind == Removed
  }

  /** The client will read that `id` is gone. */
  ghost predicate Told(c: Client, id: Id) {
    id in c.conn.subs && RemovalInInbox(c, id)
  }

  /** A watched node that is gone: a client that has it flagged will be told, and one that still may
      flag it, by an old message, will find the removal behind it. */
  ghost predicate GraveAt(w: World, c: Client, id: Id) {
    !Alive(w, id) && id !in w.server.queue && Watched(c, id) ==>
      && (id in c.conn.updateMap ==> Told(c, id))
      && (HasMail(c, id) ==> RemovalInInbox(c, id))
  }

  /** The news that a node is gone is the last about it. */
  ghost predicate FinalAt(w: World, c: Client, id: Id) {
    forall i | 0 <= i < |c.inbox| && c.inbox[i].id == id && c.inbox[i].kind == Removed ::
      && id in w.born && !Alive(w, id) && id !in w.server.queue
      && forall j | i < j < |c.inbox| :: c.inbox[j].id != id
  }

  /** How often the client is subscribed to `id`, hand-overs included. */
  function Count(c: Client, id: Id): nat {
    c.conn.subs[id] + multiset(c.conn.pipe)[Sub(id)]
  }

  /** The client has an answer with this id that it has not taken. */
  ghost predicate Answering(c: Client, id: Id) {
    c.pending.Answered? && c.pending.id == id
  }

  /** Taking the answer will not leave the client watching `id` once it has been unsubscribed once. */
  ghost predicate LastAnswer(c: Client, id: Id) {
    Answering(c, id) ==> !c.pending.subscribe && Count(c, id) <= 1
  }

  /** A node whose removal has been published is not flagged anew without another removal to come. */
  ghost predicate LateAt(w: World, c: Client, id: Id) {
    !Alive(w, id) && id !in w.server.queue ==>
      LastAnswer(c, id) && (Answering(c, id) && Watched(c, id) ==> Told(c, id))
  }

  ghost predicate AtId(w: World, c: Client, id: Id) {
    GraveAt(w, c, id) && LateAt(w, c, id) && FinalAt(w, c, id)
  }

  /** Coherence of a client at an id: all URLs it has the id for are covered. */
  ghost predicate Coherent(w: World, c: Client, id: Id) {
    (forall url :: IdOf(c.conn, url) == id ==> CoveredAt(w, c, url)) && AtId(w, c, id)
  }

  ghost predicate CoherentAt(s: Sys, k: nat, id: Id) {
    Inv(s) && k < |s.clients| && Coherent(s.world, s.clients[k], id)
  }

  /** The client is not subscribed yet, has cleared its flag, and neither shows nor fetches what the
      server has: a notice published now is the only news of it, and is missed. */
  ghost predicate Misses(w: World, c: Client, url: string) {
    var id := IdOf(c.conn, url);
    && id !in c.conn.subs && Sub(id) in c.conn.pipe
    && id in c.conn.updateMap && !c.conn.updateMap[id] && !Current(w, c, url)
  }

  /** A removal published now reaches the client before it can flag the id for good. */
  ghost predicate HearsRemoval(c: Client, id: Id) {
    && LastAnswer(c, id)
    && (Watched(c, id) && (id in c.conn.updateMap || Answering(c, id) || HasMail(c, id)) ==> id in c.conn.subs)
  }

  /** What publishing a notice for `id` asks of a client. */
  ghost predicate Harmless(w: World, c: Client, id: Id) {
    if Alive(w, id) then forall url :: IdOf(c.conn, url) == id ==> !Misses(w, c, url)
    else HearsRemoval(c, id)
  }

  /** A flush does no harm to client `k` at `id`. */
  ghost predicate Prompt(s: Sys, st: Step, k: nat, id: Id) {
    st.Flush? && k < |s.clients| && id in s.world.server.queue ==> Harmless(s.world, s.clients[k], id)
  }

  // ------------------------------------------------------------------ the steps

  lemma ReturnCoherent(w: World, c: Client, id: Id)
    requires Coherent(w, c, id) && (c.pending.Answered? || c.pending.RemoveAnswered?)
    ensures Coherent(w, AfterReturn(c), id)
  {
    hide Alive, Now;
    var c' := AfterReturn(c);
    ReturnCounts(c, id);
    forall url | IdOf(c'.conn, url) == id ensures CoveredAt(w, c', url) {
      assert IdOf(c.conn, url) == id ==> CoveredAt(w, c, url);
    }
  }

  lemma ReturnCounts(c: Client, id: Id)
    requires c.pending.Answered? || c.pending.RemoveAnswered?
    ensures var c' := AfterReturn(c);
            && c'.inbox == c.inbox && c'.conn.subs == c.conn.subs
            && (Answering(c, id) && !c.pending.subscribe ==> Watched(c', id) == Watched(c, id))
            && (!Answering(c, id) ==> Watched(c', id) == Watched(c, id))
  {}

  lemma CloseCoherent(w: World, c: Client, url: string, id: Id)
    requires Coherent(w, c, id) && c.pending.Idle?
    ensures Coherent(w, c.(conn := LetGo(c.conn, url)), id)
  {
    hide Alive, Now;
    var c' := c.(conn := LetGo(c.conn, url));
    forall u | IdOf(c'.conn, u) == id ensures CoveredAt(w, c', u) {
      assert CoveredAt(w, c, u);
    }
  }

  /** What taking a hand-over does to one id: it is no longer flagged, or no less subscribed. */
  lemma TakeOverAt(c: Client, id: Id)
    requires c.conn.pipe != []
    ensures var conn := TakeHandover(c.conn);
            var c' := c.(conn := conn);
            && FlagsFewer(c.conn, conn) && Count(c', id) <= Count(c, id)
            && (Sub(id) in conn.pipe ==> Sub(id) in c.conn.pipe)
            && (id in conn.subs ==> Watched(c, id))
            && (id in conn.updateMap && id in c.conn.subs ==> id in conn.subs)
            && (Watched(c', id) ==> Watched(c, id))
  {
    assert c.conn.pipe == [c.conn.pipe[0]] + c.conn.pipe[1..];
  }

  lemma TakeOverCoherent(w: World, c: Client, id: Id)
    requires Coherent(w, c, id) && c.conn.pipe != []
    ensures Coherent(w, c.(conn := TakeHandover(c.conn)), id)
  {
    hide Alive, Now, TakeHandover;
    var c' := c.(conn := TakeHandover(c.conn));
    TakeOverAt(c, id);
    forall u | IdOf(c'.conn, u) == id ensures CoveredAt(w, c', u) {
      assert CoveredAt(w, c, u);
    }
    if Answering(c, id) && Watched(c', id) && Told(c, id) {
      OnceIsAll(c, id);
    }
  }

  /** A client subscribed once in all, and already subscribed, has no hand-over waiting. */
  lemma OnceIsAll(c: Client, id: Id)
    requires id in c.conn.subs && Count(c, id) <= 1
    ensures Sub(id) !in c.conn.pipe
  {
    assert Sub(id) in c.conn.pipe ==> Sub(id) in multiset(c.conn.pipe);
  }

  /** What reading a message does to one id: it is flagged, no longer flagged, or as before. */
  lemma ReadAt(c: Client, id: Id)
    requires c.inbox != []
    ensures var c' := AfterRead(c);
            && c'.conn.idMap == c.conn.idMap && c'.conn.nodeMap == c.conn.nodeMap && c'.conn.pipe == c.conn.pipe
            && c'.pending == c.pending
            && (if id in c.conn.subs && c.inbox[0].id == id
                then id in c'.conn.updateMap ==> c'.conn.updateMap[id] && c.inbox[0].kind == Updated && id in c'.conn.subs
                else && (id in c'.conn.updateMap <==> id in c.conn.updateMap)
                     && (id in c.conn.updateMap ==> c'.conn.updateMap[id] == c.conn.updateMap[id])
                     && (id in c'.conn.subs <==> id in c.conn.subs))
            && (forall m | m in c.inbox && (m.id != c.inbox[0].id || m.kind != c.inbox[0].kind) :: m in c'.inbox)
            && (forall m | m in c'.inbox :: m in c.inbox)
            && c'.conn.subs[id] <= c.conn.subs[id]
  {
    assert c.inbox == [c.inbox[0]] + c.inbox[1..];
  }

  /** A removal at the head of the inbox is all there is for its id. */
  lemma NoneAfterRemoval(w: World, c: Client, id: Id)
    requires FinalAt(w, c, id) && c.inbox != [] && c.inbox[0].id == id && c.inbox[0].kind == Removed
    ensures !HasMail(AfterRead(c), id)
    ensures id in c.conn.subs ==> id !in AfterRead(c).conn.updateMap && Count(AfterRead(c), id) < Count(c, id)
  {}

  lemma ReadKeepsGrave(w: World, c: Client, id: Id)
    requires GraveAt(w, c, id) && FinalAt(w, c, id) && c.inbox != []
    ensures GraveAt(w, AfterRead(c), id)
  {
    hide Alive, Now, AfterRead;
    var c', m0 := AfterRead(c), c.inbox[0];
    ReadAt(c, id);
    assert m0 in c.inbox;
    if m0.id == id && m0.kind == Removed {
      NoneAfterRemoval(w, c, id);
    }
  }

  lemma ReadKeepsLate(w: World, c: Client, id: Id)
    requires LateAt(w, c, id) && FinalAt(w, c, id) && c.inbox != []
    ensures LateAt(w, AfterRead(c), id)
  {
    hide Alive, Now, AfterRead;
    var c', m0 := AfterRead(c), c.inbox[0];
    ReadAt(c, id);
    if m0.id == id && m0.kind == Removed {
      NoneAfterRemoval(w, c, id);
      if Watched(c', id) {
        NeverWatched(c', id);
      }
    }
  }

  lemma NeverWatched(c: Client, id: Id)
    requires Watched(c, id)
    ensures Count(c, id) >= 1
  {
    assert Sub(id) in c.conn.pipe ==> Sub(id) in multiset(c.conn.pipe);
  }

  lemma ReadKeepsFinal(w: World, c: Client, id: Id)
    requires FinalAt(w, c, id) && c.inbox != []
    ensures FinalAt(w, AfterRead(c), id)
  {
    hide Alive, Now, Receive;
    assert forall i | 0 <= i < |AfterRead(c).inbox| :: AfterRead(c).inbox[i] == c.inbox[i + 1];
  }

  lemma ReadCoherent(w: World, c: Client, id: Id)
    requires Coherent(w, c, id) && c.inbox != []
    ensures Coherent(w, AfterRead(c), id)
  {
    hide Alive, Now, AfterRead, GraveAt, LateAt, FinalAt;
    ReadAt(c, id);
    ReadKeepsGrave(w, c, id);
    ReadKeepsLate(w, c, id);
    ReadKeepsFinal(w, c, id);
    forall u | IdOf(AfterRead(c).conn, u) == id ensures CoveredAt(w, AfterRead(c), u) {
      assert CoveredAt(w, c, u);
    }
  }

  lemma LookCoveredOther(w: World, c: Client, url: string, u: string)
    requires c.pending.Idle? && CoveredAt(w, c, u) && u != url
    requires IdOf(c.conn, u) == IdOf(c.conn, url) ==> IdOf(c.conn, u) !in c.conn.updateMap
    ensures CoveredAt(w, AfterLook(c, url), u)
  {
    hide Alive, Now, AfterLook;
    LookShape(c, url);
    LookReads(c, url, u);
  }

  lemma LookCoveredSame(w: World, c: Client, url: string)
    requires c.pending.Idle? && CoveredAt(w, c, url)
    ensures CoveredAt(w, AfterLook(c, url), url)
  {
    hide Alive, Now, AfterLook;
    LookShape(c, url);
    LookReads(c, url, url);
  }

  lemma LookAtId(w: World, c: Client, url: string, id: Id)
    requires c.pending.Idle? && AtId(w, c, id)
    ensures AtId(w, AfterLook(c, url), id)
  {
    hide Alive, Now, AfterLook;
    LookShape(c, url);
  }

  lemma LookCoherent(w: World, c: Client, url: string, id: Id)
    requires GoodWorld(w) && ClientOk(w, c) && Coherent(w, c, id) && c.pending.Idle?
    ensures Coherent(w, AfterLook(c, url), id)
  {
    hide CoveredAt, AtId, FreshAt, OwnOk, AfterLook, Canonical, GetPathArray;
    NoIdIsNone(w);
    assert AtUrl(w, c, url);
    LookAtId(w, c, url, id);
    forall u | IdOf(AfterLook(c, url).conn, u) == id ensures CoveredAt(w, AfterLook(c, url), u) {
      LookReads(c, url, u);
      assert AtUrl(w, c, u);
      if u == url {
        LookCoveredSame(w, c, url);
      } else {
        if IdOf(c.conn, u) == IdOf(c.conn, url) && IdOf(c.conn, u) in c.conn.updateMap {
          OneUrl(w, u, url, IdOf(c.conn, u));
        }
        LookCoveredOther(w, c, url, u);
      }
    }
  }

  lemma ServeCoherent(w: World, c: Client, id: Id)
    requires GoodWorld(w) && PendingOk(w, c) && Coherent(w, c, id) && c.pending.Asked?
    ensures Coherent(w, AfterServe(w, c), id)
  {
    var c' := AfterServe(w, c);
    NowIsFind(w, c.pending.id);
    hide GoodWorld, Alive, Now;
    forall u | IdOf(c'.conn, u) == id ensures CoveredAt(w, c', u) {
      assert CoveredAt(w, c, u);
    }
  }

  lemma StoreCoherent(w: World, c: Client, id: Id)
    requires PendingOk(w, c) && Coherent(w, c, id) && c.pending.Fetched?
    ensures Coherent(w, AfterStore(c), id)
  {
    hide Now;
    var c' := AfterStore(c);
    forall u | IdOf(c'.conn, u) == id ensures CoveredAt(w, c', u) {
      assert CoveredAt(w, c, u);
    }
  }

  lemma MoveCoherent(w: World, cmd: Command, c: Client, id: Id)
    requires GoodWorld(w) && ClientOk(w, c) && Coherent(w, c, id)
    ensures Coherent(Move(w, cmd), Observe(Move(w, cmd), c), id)
  {
    hide Now, Move, AtUrl, OwnOk, PendingOk, GoodWorld;
    var w', c' := Move(w, cmd), Observe(Move(w, cmd), c);
    MoveMoved(w, cmd, id);
    if id !in w.born {
      NewIsUnheard(w, c, id);
    }
    forall u | IdOf(c'.conn, u) == id ensures CoveredAt(w', c', u) {
      assert CoveredAt(w, c, u);
    }
  }

  /** A client knows nothing of an id that was not given out. */
  lemma NewIsUnheard(w: World, c: Client, id: Id)
    requires ClientOk(w, c) && id !in w.born
    ensures !Watched(c, id) && !Answering(c, id) && !HasMail(c, id)
  {}

  lemma CallCoherent(w: World, cmd: Command, c: Client, watch: bool, id: Id)
    requires GoodWorld(w) && ClientOk(w, c) && Coherent(w, c, id) && c.pending.Idle? && Canonical(cmd.path)
    ensures Coherent(Move(w, cmd), AfterCall(Observe(Move(w, cmd), c), cmd, Apply(w.server, cmd).1, watch), id)
  {
    hide Now, Move, ClientOk, GoodWorld, Apply, Canonical, Names;
    var w', c1, reply := Move(w, cmd), Observe(Move(w, cmd), c), Apply(w.server, cmd).1;
    var c' := AfterCall(c1, cmd, reply, watch);
    MoveCoherent(w, cmd, c, id);
    if reply.OkId? {
      AnswerNames(w, cmd);
    }
    forall u | IdOf(c'.conn, u) == id ensures CoveredAt(w', c', u) {
      assert CoveredAt(w', c1, u);
    }
  }

  /** Publishing puts every queued id a client is subscribed to into its inbox. */
  lemma PublishedNoticed(w: World, order: seq<Id>, c: Client, id: Id)
    requires Enumerates(order, w.server.queue) && id in w.server.queue && id in c.conn.subs
    ensures var c' := AfterFlush(w, order, c);
            exists m :: m in c'.inbox && m.id == id && m.kind == w.server.queue[id]
  {
    var m := Message(id, w.server.queue[id], Stamp(w, id));
    PublishedMember(w, order, c.conn.subs, m);
    assert m in AfterFlush(w, order, c).inbox;
  }

  lemma {:induction false} PublishedOnce(w: World, order: seq<Id>, subs: multiset<Id>, i: nat, j: nat)
    requires forall id | id in order :: id in w.server.queue
    requires forall k, l | 0 <= k < l < |order| :: order[k] != order[l]
    requires i < j < |Published(w, order, subs)|
    ensures Published(w, order, subs)[i].id != Published(w, order, subs)[j].id
  {
    var rest := Published(w, order[1..], subs);
    if order[0] in subs {
      if i > 0 {
        PublishedOnce(w, order[1..], subs, i - 1, j - 1);
      } else {
        PublishedMember(w, order[1..], subs, rest[j - 1]);
        assert rest[j - 1] in rest;
      }
    } else {
      PublishedOnce(w, order[1..], subs, i, j);
    }
  }

  lemma FlushFinal(w: World, order: seq<Id>, c: Client, id: Id)
    requires GoodWorld(w) && FinalAt(w, c, id) && Enumerates(order, w.server.queue)
    ensures FinalAt(Emptied(w), AfterFlush(w, order, c), id)
  {
    hide Valid, Published;
    var c', p := AfterFlush(w, order, c), Published(w, order, c.conn.subs);
    forall i | 0 <= i < |c'.inbox| && c'.inbox[i].id == id && c'.inbox[i].kind == Removed
      ensures id in w.born && !Alive(Emptied(w), id) && forall j | i < j < |c'.inbox| :: c'.inbox[j].id != id
    {
      var n := |c.inbox|;
      forall j | n <= j < |c'.inbox|
        ensures c'.inbox[j] == p[j - n] && c'.inbox[j].id in w.server.queue
        ensures c'.inbox[j].kind == w.server.queue[c'.inbox[j].id]
      {
        PublishedMember(w, order, c.conn.subs, p[j - n]);
        assert p[j - n] in p;
      }
      if i < n {
        assert c.inbox[i] == c'.inbox[i];
      } else {
        QueuedRemoval(w, id);
        QueuedBorn(w, id);
        forall j | i < j < |c'.inbox| ensures c'.inbox[j].id != id {
          PublishedOnce(w, order, c.conn.subs, i - n, j - n);
        }
      }
    }
  }

  lemma QueuedBorn(w: World, id: Id)
    requires GoodWorld(w) && id in w.server.queue
    ensures id in w.born
  {}

  lemma QueuedRemoval(w: World, id: Id)
    requires GoodWorld(w) && id in w.server.queue
    ensures w.server.queue[id] == Removed <==> !Alive(w, id)
  {
    NowIsFind(w, id);
  }

  /** A client gets mail for an id from a flush exactly if the id is queued and it is subscribed. */
  lemma FlushMail(w: World, order: seq<Id>, c: Client, id: Id)
    requires Enumerates(order, w.server.queue)
    ensures var c', sent := AfterFlush(w, order, c), id in w.server.queue && id in c.conn.subs;
            && (HasMail(c', id) <==> HasMail(c, id) || sent)
            && (RemovalInInbox(c', id) <==> RemovalInInbox(c, id) || (sent && w.server.queue[id] == Removed))
  {
    hide Published;
    var c' := AfterFlush(w, order, c);
    assert forall m | m in c.inbox :: m in c'.inbox;
    if id in w.server.queue && id in c.conn.subs {
      PublishedNoticed(w, order, c, id);
    }
    forall m | m in c'.inbox && m.id == id
      ensures m in c.inbox || (id in w.server.queue && id in c.conn.subs && m.kind == w.server.queue[id]) {
      PublishedMember(w, order, c.conn.subs, m);
    }
  }

  /** After a flush a URL is not covered exactly if the flush took the notice of its id away unheard,
      when the client had cleared its flag and neither shows nor fetches what the server has. */
  lemma FlushCoveredIff(w: World, order: seq<Id>, c: Client, url: string)
    requires CoveredAt(w, c, url) && Enumerates(order, w.server.queue)
    ensures !CoveredAt(Emptied(w), AfterFlush(w, order, c), url) <==>
              IdOf(c.conn, url) in w.server.queue && Misses(w, c, url)
  {
    hide AfterFlush;
    FlushMail(w, order, c, IdOf(c.conn, url));
    FlushFrame(w, order, c);
    assert Current(Emptied(w), AfterFlush(w, order, c), url) == Current(w, c, url);
  }

  lemma FlushFrame(w: World, order: seq<Id>, c: Client)
    requires Enumerates(order, w.server.queue)
    ensures AfterFlush(w, order, c) == c.(inbox := AfterFlush(w, order, c).inbox)
  {}

  lemma FlushAtId(w: World, order: seq<Id>, c: Client, id: Id)
    requires GoodWorld(w) && AtId(w, c, id) && Enumerates(order, w.server.queue)
    ensures var w', c' := Emptied(w), AfterFlush(w, order, c);
            && FinalAt(w', c', id)
            && (GraveAt(w', c', id) && LateAt(w', c', id) <==>
                id !in w.server.queue || Alive(w, id) || HearsRemoval(c, id))
  {
    hide GoodWorld, AfterFlush, FinalAt, Now;
    assert Alive(Emptied(w), id) == Alive(w, id) by {
      assert Now(Emptied(w), id) == Now(w, id) by {
        NowEmptied(w, id);
      }
    }
    FlushMail(w, order, c, id);
    FlushFrame(w, order, c);
    FlushFinal(w, order, c, id);
    if id in w.server.queue {
      QueuedRemoval(w, id);
      QueuedUnsent(w, c, id);
    }
  }

  /** A queued notice is the last about its id, so no removal of it has been sent. */
  lemma QueuedUnsent(w: World, c: Client, id: Id)
    requires FinalAt(w, c, id) && id in w.server.queue
    ensures !RemovalInInbox(c, id)
  {}

  lemma NowEmptied(w: World, id: Id)
    ensures Now(Emptied(w), id) == Now(w, id)
  {}

  /** A flush keeps a client coherent at an id exactly if it is harmless there. */
  lemma FlushCoherentIff(w: World, order: seq<Id>, c: Client, id: Id)
    requires GoodWorld(w) && Coherent(w, c, id) && Enumerates(order, w.server.queue)
    ensures Coherent(Emptied(w), AfterFlush(w, order, c), id) <==>
            (id in w.server.queue ==> Harmless(w, c, id))
  {
    hide GoodWorld, AfterFlush, GraveAt, LateAt, FinalAt, Now, Alive, CoveredAt;
    FlushAtId(w, order, c, id);
    FlushFrame(w, order, c);
    forall url | IdOf(c.conn, url) == id
      ensures CoveredAt(Emptied(w), AfterFlush(w, order, c), url) <==> !(id in w.server.queue && Misses(w, c, url)) {
      FlushCoveredIff(w, order, c, url);
      assert CoveredAt(w, c, url);
    }
  }

  /** Where subscriptions take effect inside the calls that make them, the one flush that can do harm
      publishes the removal of an id for which the client has been answered and is subscribed twice. */
  lemma SettledHarmlessIff(w: World, c: Client, id: Id)
    requires Sub(id) !in c.conn.pipe && !(Answering(c, id) && c.pending.subscribe)
    ensures Harmless(w, c, id) <==> Alive(w, id) || !Answering(c, id) || c.conn.subs[id] <= 1
  {}

  // ------------------------------------------------------------------ the whole system

  lemma InitCoherent(s: Sys, k: nat, id: Id)
    requires Init(s) && k < |s.clients|
    ensures CoherentAt(s, k, id)
  {
    InitInv(s);
  }

  lemma StepCoherent(s: Sys, st: Step, k: nat, id: Id)
    requires CoherentAt(s, k, id) && Enabled(s, st) && Prompt(s, st, k, id)
    ensures CoherentAt(Do(s, st), k, id)
  {
    hide GoodWorld, ClientOk, Canonical, Move, Apply, Coherent, Harmless;
    StepInv(s, st);
    var w, c := s.world, s.clients[k];
    PendingOf(w, c);
    match st
    case Call(i, cmd, watch) =>
      if i == k {
        CallCoherent(w, cmd, c, watch, id);
      } else {
        MoveCoherent(w, cmd, c, id);
      }
    case Return(i) => if i == k { ReturnCoherent(w, c, id); }
    case Close(i, url) => if i == k { CloseCoherent(w, c, url, id); }
    case TakeOver(i) => if i == k { TakeOverCoherent(w, c, id); }
    case Flush(order) => FlushCoherentIff(w, order, c, id);
    case Read(i) => if i == k { ReadCoherent(w, c, id); }
    case Look(i, url) => if i == k { LookCoherent(w, c, url, id); }
    case Serve(i) => if i == k { ServeCoherent(w, c, id); }
    case Store(i) => if i == k { StoreCoherent(w, c, id); }
  }

  lemma PendingOf(w: World, c: Client)
    requires ClientOk(w, c)
    ensures PendingOk(w, c)
  {}

  /** Cache coherence: in every run, a client is coherent at an id until a flush harms it there,
      whatever flushes do to other clients and other ids. */
  lemma {:induction false} CacheCoherent(states: seq<Sys>, steps: seq<Step>, i: nat, k: nat, id: Id)
    requires Run(states, steps) && i < |states| && k < |states[0].clients|
    requires forall j | 0 <= j < i :: Prompt(states[j], steps[j], k, id)
    ensures CoherentAt(states[i], k, id)
  {
    hide Do, Enabled, Prompt, CoherentAt;
    if i == 0 {
      InitCoherent(states[0], k, id);
    } else {
      CacheCoherent(states, steps, i - 1, k, id);
      StepCoherent(states[i - 1], steps[i - 1], k, id);
    }
  }
}
