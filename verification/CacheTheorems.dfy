/** What the protocol's invariants give a caller of `get_value`. */
module CacheTheorems {
  import opened Paths
  import opened Options
  import opened AdvertStore
  import opened ConnectionState
  import opened CacheProtocol
  import opened CacheInvariant
  import opened CacheCoherence

  // ------------------------------------------------------------------ quiescent convergence

  /** No news of `id` is queued or on its way to the client, and it is fetching nothing. */
  ghost predicate Settled(w: World, c: Client, id: Id) {
    id !in w.server.queue && !HasMail(c, id) && c.pending.Idle?
  }

  /** Where a client is coherent at an open watched id with no news of it underway, it is up to date. */
  lemma CoherentIsCurrent(s: Sys, k: nat, url: string)
    requires k < |s.clients| && CoherentAt(s, k, IdOf(s.clients[k].conn, url))
    requires var c := s.clients[k];
             var id := IdOf(c.conn, url);
             Settled(s.world, c, id) && id in c.conn.updateMap && Watched(c, id)
    ensures var c := s.clients[k].conn;
            var (_, ok, value) := GetValue(c, url, s.world.server.docs);
            Alive(s.world, IdOf(c, url)) && ok && value == Now(s.world, IdOf(c, url))
  {
    var w, c := s.world, s.clients[k];
    var id := IdOf(c.conn, url);
    assert CoveredAt(w, c, url) && AtId(w, c, id);
    NowIsFind(w, id);
    hide GoodWorld, Now;
  }

  /** Convergence: in every run, unless a flush has harmed the client at the id it has for a URL, and
      with no news of that id queued or in flight and nothing being fetched, an open subscribed node is
      alive and `get_value` returns exactly the server's document. */
  lemma QuiescentConvergence(states: seq<Sys>, steps: seq<Step>, i: nat, k: nat, url: string)
    requires Run(states, steps) && i < |states| && k < |states[i].clients|
    requires var id := IdOf(states[i].clients[k].conn, url);
             forall j | 0 <= j < i :: Prompt(states[j], steps[j], k, id)
    requires var c := states[i].clients[k];
             var id := IdOf(c.conn, url);
             Settled(states[i].world, c, id) && id in c.conn.updateMap && Watched(c, id)
    ensures var c, w := states[i].clients[k].conn, states[i].world;
            var (_, ok, value) := GetValue(c, url, w.server.docs);
            Alive(w, IdOf(c, url)) && ok && value == Now(w, IdOf(c, url))
  {
    hide Run, Prompt, CoherentAt, Settled, Watched, Alive;
    RunClients(states, steps, 0, i);
    CacheCoherent(states, steps, i, k, IdOf(states[i].clients[k].conn, url));
    CoherentIsCurrent(states[i], k, url);
  }

  // ------------------------------------------------------------------ runs of one read

  /** A `get_value` of client `k` at `url` looks in step `l` and returns in step `j`. */
  ghost predicate Reads(states: seq<Sys>, steps: seq<Step>, l: nat, j: nat, k: nat, url: string) {
    && l <= j < |steps| && |states| == |steps| + 1 && steps[l] == Look(k, url)
    && (l < j ==>
          && k < |states[l + 1].clients| && states[l + 1].clients[k].pending.Asked?
          && steps[j] == Store(k) && forall m | l < m < j :: steps[m] != Store(k))
  }

  lemma StepClients(s: Sys, st: Step)
    requires Enabled(s, st)
    ensures |Do(s, st).clients| == |s.clients|
  {}

  lemma {:induction false} RunClients(states: seq<Sys>, steps: seq<Step>, i: nat, j: nat)
    requires Run(states, steps) && i <= j < |states|
    ensures |states[j].clients| == |states[i].clients|
  {
    if i < j {
      RunClients(states, steps, i, j - 1);
      StepClients(states[j - 1], steps[j - 1]);
    }
  }

  // ------------------------------------------------------------------ freshness

  /** A fetch for `id` is on its way whose answer will be at least as new as `stamp`. */
  ghost predicate WillBe(c: Client, url: string, id: Id, stamp: nat) {
    match c.pending
    case Asked(u, i) => u == url && i == id && stamp <= AnnouncedAt(c, id)
    case Fetched(u, i, answer, st) => u == url && i == id && (answer.Some? ==> stamp <= st)
    case _ => false
  }

  lemma AnnouncedGrows(s: Sys, st: Step, k: nat, id: Id)
    requires Enabled(s, st) && k < |s.clients|
    ensures AnnouncedAt(s.clients[k], id) <= AnnouncedAt(Do(s, st).clients[k], id)
  {
    hide Move, Apply, Published;
  }

  lemma {:induction false} AnnouncedGrowsRun(states: seq<Sys>, steps: seq<Step>, i: nat, j: nat, k: nat, id: Id)
    requires Run(states, steps) && i <= j < |states| && k < |states[i].clients|
    ensures k < |states[j].clients|
    ensures AnnouncedAt(states[i].clients[k], id) <= AnnouncedAt(states[j].clients[k], id)
  {
    hide Do, Enabled, Init, AnnouncedAt;
    RunClients(states, steps, i, j);
    if i < j {
      AnnouncedGrowsRun(states, steps, i, j - 1, k, id);
      AnnouncedGrows(states[j - 1], steps[j - 1], k, id);
    }
  }

  lemma WillBeStep(s: Sys, st: Step, k: nat, url: string, id: Id, stamp: nat)
    requires Inv(s) && Enabled(s, st) && k < |s.clients| && WillBe(s.clients[k], url, id, stamp) && st != Store(k)
    ensures WillBe(Do(s, st).clients[k], url, id, stamp)
  {
    hide Move, Apply, Published, GoodWorld, AtUrl, OwnOk, Canonical;
    AnnouncedGrows(s, st, k, id);
    var c := s.clients[k];
    if c.pending.Asked? && st == Serve(k) {
      assert ClientOk(s.world, c);
      assert AnnouncedAt(c, id) <= Stamp(s.world, id);
    }
  }

  /** While a read is between its look and its store, its fetch stays on its way. */
  lemma {:induction false} WillBeRun(states: seq<Sys>, steps: seq<Step>, l: nat, m: nat, k: nat, url: string, id: Id, stamp: nat)
    requires Run(states, steps) && l < m < |states| && k < |states[l + 1].clients|
    requires WillBe(states[l + 1].clients[k], url, id, stamp)
    requires forall n | l < n < m :: steps[n] != Store(k)
    ensures k < |states[m].clients| && WillBe(states[m].clients[k], url, id, stamp)
  {
    hide Do, Enabled, Init, Inv, WillBe;
    RunClients(states, steps, l + 1, m);
    if m > l + 1 {
      WillBeRun(states, steps, l, m - 1, k, url, id, stamp);
      RunInv(states, steps, m - 1);
      WillBeStep(states[m - 1], steps[m - 1], k, url, id, stamp);
    }
  }

  /** Freshness: once a notice has been delivered, every read begun later that succeeds on the
      still-living node shows a state at least as new as the change it announced. */
  lemma Freshness(states: seq<Sys>, steps: seq<Step>, i: nat, l: nat, j: nat, k: nat, url: string)
    requires Run(states, steps) && i <= l && Reads(states, steps, l, j, k, url)
    requires k < |states[i].clients|
    requires Result(states[j], steps[j]).Some? && Result(states[j], steps[j]).value.ok
    requires k < |states[l].clients| && Alive(states[j].world, IdOf(states[l].clients[k].conn, url))
    ensures AnnouncedAt(states[i].clients[k], IdOf(states[l].clients[k].conn, url)) <= Result(states[j], steps[j]).value.stamp
  {
    var id := IdOf(states[l].clients[k].conn, url);
    var stamp := AnnouncedAt(states[i].clients[k], id);
    AnnouncedGrowsRun(states, steps, i, l, k, id);
    if l == j {
      RunInv(states, steps, j);
      CleanIsFresh(states[j], k, url);
    } else {
      LookAsks(states[l], k, url, stamp);
      WillBeRun(states, steps, l, j, k, url, id, stamp);
    }
  }

  lemma LookAsks(s: Sys, k: nat, url: string, stamp: nat)
    requires Enabled(s, Look(k, url)) && Do(s, Look(k, url)).clients[k].pending.Asked?
    requires stamp <= AnnouncedAt(s.clients[k], IdOf(s.clients[k].conn, url))
    ensures WillBe(Do(s, Look(k, url)).clients[k], url, IdOf(s.clients[k].conn, url), stamp)
  {}

  lemma CleanIsFresh(s: Sys, k: nat, url: string)
    requires Inv(s) && Enabled(s, Look(k, url)) && Alive(s.world, IdOf(s.clients[k].conn, url))
    requires Result(s, Look(k, url)).Some? && Result(s, Look(k, url)).value.ok
    ensures AnnouncedAt(s.clients[k], IdOf(s.clients[k].conn, url)) <= Result(s, Look(k, url)).value.stamp
    ensures Result(s, Look(k, url)).value.value.Some?
  {
    hide GoodWorld, Alive, Canonical;
    assert AtUrl(s.world, s.clients[k], url);
  }

  // ------------------------------------------------------------------ monotonic reads

  lemma StampGrows(s: Sys, st: Step, k: nat, url: string)
    requires Inv(s) && Enabled(s, st) && k < |s.clients|
    ensures StampOf(s.clients[k], url) <= StampOf(Do(s, st).clients[k], url)
  {
    hide Move, Apply, Published, GoodWorld, AtUrl, OwnOk, Canonical, NotNewer, Names;
    assert ClientOk(s.world, s.clients[k]);
  }

  lemma {:induction false} StampGrowsRun(states: seq<Sys>, steps: seq<Step>, i: nat, j: nat, k: nat, url: string)
    requires Run(states, steps) && i <= j < |states| && k < |states[i].clients|
    ensures k < |states[j].clients|
    ensures StampOf(states[i].clients[k], url) <= StampOf(states[j].clients[k], url)
  {
    hide Do, Enabled, Init, Inv, StampOf;
    RunClients(states, steps, i, j);
    if i < j {
      StampGrowsRun(states, steps, i, j - 1, k, url);
      RunInv(states, steps, j - 1);
      StampGrows(states[j - 1], steps[j - 1], k, url);
    }
  }

  /** A read's stamp is the cache's stamp before a clean look, and after a store. */
  lemma ResultStamp(s: Sys, st: Step)
    requires Inv(s) && Enabled(s, st) && Result(s, st).Some? && Result(s, st).value.ok
    ensures var g := Result(s, st).value;
            && g.c < |s.clients|
            && StampOf(s.clients[g.c], g.url) <= g.stamp == StampOf(Do(s, st).clients[g.c], g.url)
  {
    hide Move, Apply, Published, GoodWorld, AtUrl, OwnOk, Canonical, NotNewer, Names;
    var g := Result(s, st).value;
    assert ClientOk(s.world, s.clients[g.c]);
  }

  /** A client's reads of one URL never go back to an older snapshot. */
  lemma MonotonicReads(states: seq<Sys>, steps: seq<Step>, i: nat, j: nat)
    requires Run(states, steps) && i < j < |steps|
    requires Result(states[i], steps[i]).Some? && Result(states[j], steps[j]).Some?
    requires var g, h := Result(states[i], steps[i]).value, Result(states[j], steps[j]).value;
             g.ok && h.ok && g.c == h.c && g.url == h.url
    ensures Result(states[i], steps[i]).value.stamp <= Result(states[j], steps[j]).value.stamp
  {
    var g := Result(states[i], steps[i]).value;
    RunInv(states, steps, i);
    RunInv(states, steps, j);
    ResultStamp(states[i], steps[i]);
    ResultStamp(states[j], steps[j]);
    StepClients(states[i], steps[i]);
    StampGrowsRun(states, steps, i + 1, j, g.c, g.url);
  }

  /** Some state up to `i` had `d` as the document of its id, last changed at `stamp`. */
  ghost predicate WasCurrent(states: seq<Sys>, i: nat, d: Doc, stamp: nat) {
    exists m | 0 <= m <= i < |states| :: Now(states[m].world, d.id) == Some(d) && Stamp(states[m].world, d.id) == stamp
  }

  /** What a client has fetched, or cached, at `url`. */
  ghost predicate Holds(c: Client, url: string, d: Doc, stamp: nat) {
    || (c.pending.Fetched? && c.pending.url == url && c.pending.answer == Some(d) && c.pending.stamp == stamp)
    || (Cached(c.conn, url) == Some(d) && StampOf(c, url) == stamp)
  }

  lemma ObserveKeeps(w: World, c: Client)
    ensures Observe(w, c).conn == c.conn && Observe(w, c).pending == c.pending
    ensures Observe(w, c).cacheStamp == c.cacheStamp
  {}

  lemma ServedIsNow(s: Sys, k: nat)
    requires Inv(s) && k < |s.clients| && s.clients[k].pending.Asked?
    ensures var p := AfterServe(s.world, s.clients[k]).pending;
            && p.answer == Now(s.world, p.id) && p.stamp == Stamp(s.world, p.id)
            && (p.answer.Some? ==> p.answer.value.id == p.id)
  {
    NowIsFind(s.world, s.clients[k].pending.id);
  }

  lemma LookHolds(c: Client, u: string, url: string)
    requires c.pending.Idle?
    ensures var c' := AfterLook(c, u);
            Cached(c'.conn, url) == Cached(c.conn, url) && c'.cacheStamp == c.cacheStamp && !c'.pending.Fetched?
  {}

  lemma StoreHolds(c: Client, url: string, d: Doc, stamp: nat)
    requires c.pending.Fetched? && Holds(AfterStore(c), url, d, stamp)
    ensures Holds(c, url, d, stamp)
  {}

  lemma CallHolds(s: Sys, i: nat, cmd: Command, watch: bool, k: nat, url: string, d: Doc, stamp: nat)
    requires Enabled(s, Call(i, cmd, watch)) && k < |s.clients|
    requires Holds(Do(s, Call(i, cmd, watch)).clients[k], url, d, stamp)
    ensures Holds(s.clients[k], url, d, stamp)
  {
    hide Move, Apply, Canonical, Observe, Subscribes;
    ObserveKeeps(Move(s.world, cmd), s.clients[k]);
  }

  lemma HoldsFrom(s: Sys, st: Step, k: nat, url: string, d: Doc, stamp: nat)
    requires Inv(s) && Enabled(s, st) && k < |s.clients| && Holds(Do(s, st).clients[k], url, d, stamp)
    ensures Holds(s.clients[k], url, d, stamp) || (Now(s.world, d.id) == Some(d) && Stamp(s.world, d.id) == stamp)
  {
    hide Move, Apply, Published, Canonical, Inv, Now, Stamp, Observe, LookUp, StoreAnswer, Receive, TakeHandover;
    hide Find, Deliver, Alive, Subscribes, Enumerates, Valid, GoodWorld, AfterCall;
    var c := s.clients[k];
    match st
    case Call(i, cmd, watch) => CallHolds(s, i, cmd, watch, k, url, d, stamp);
    case Serve(i) => if i == k { ServedIsNow(s, k); }
    case Store(i) => if i == k { StoreHolds(c, url, d, stamp); }
    case Look(i, u) => if i == k { LookHolds(c, u, url); }
    case TakeOver(i) => if i == k { TakeOverAt(c, 0); }
    case Read(i) => if i == k { ReadAt(c, 0); }
    case Return(_) =>
    case Close(_, _) =>
    case Flush(_) =>
  }

  lemma {:induction false} HoldsSnapshot(states: seq<Sys>, steps: seq<Step>, i: nat, k: nat, url: string, d: Doc, stamp: nat)
    requires Run(states, steps) && i < |states| && k < |states[i].clients| && Holds(states[i].clients[k], url, d, stamp)
    ensures WasCurrent(states, i, d, stamp)
  {
    if i > 0 {
      RunInv(states, steps, i - 1);
      StepClients(states[i - 1], steps[i - 1]);
      HoldsFrom(states[i - 1], steps[i - 1], k, url, d, stamp);
      if Holds(states[i - 1].clients[k], url, d, stamp) {
        HoldsSnapshot(states, steps, i - 1, k, url, d, stamp);
        var m :| 0 <= m <= i - 1 && Now(states[m].world, d.id) == Some(d) && Stamp(states[m].world, d.id) == stamp;
      }
    }
  }

  /** Every document a read returns is one the server had, with the stamp the read carries. */
  lemma ReadsAreSnapshots(states: seq<Sys>, steps: seq<Step>, i: nat)
    requires Run(states, steps) && i < |steps|
    requires Result(states[i], steps[i]).Some? && Result(states[i], steps[i]).value.ok
    requires Result(states[i], steps[i]).value.value.Some?
    ensures var g := Result(states[i], steps[i]).value; WasCurrent(states, i, g.value.value, g.stamp)
  {
    var g := Result(states[i], steps[i]).value;
    HoldsSnapshot(states, steps, i, g.c, g.url, g.value.value, g.stamp);
  }

  // ------------------------------------------------------------------ read your writes

  /** Client `k` sets `key` to `val` at `url` in step `i` and is answered `id`. */
  ghost predicate Writes(states: seq<Sys>, steps: seq<Step>, i: nat, k: nat, url: string, key: string, val: Value, id: Id) {
    && i < |steps| && |states| == |steps| + 1
    && steps[i] == Call(k, SetAttribute(url, key, val), true)
    && Apply(states[i].world.server, SetAttribute(url, key, val)).1 == OkId(id)
  }

  lemma WriteObserved(s: Sys, k: nat, url: string, key: string, val: Value, id: Id)
    requires Enabled(s, Call(k, SetAttribute(url, key, val), true))
    requires Apply(s.world.server, SetAttribute(url, key, val)).1 == OkId(id)
    ensures k < |s.clients| == |Do(s, Call(k, SetAttribute(url, key, val), true)).clients|
    ensures Do(s, Call(k, SetAttribute(url, key, val), true)).clients[k].own == Some(Own(url, id, key, val, true))
  {
    hide Move, Apply;
  }

  lemma ObservedStays(s: Sys, st: Step, k: nat, o: Own)
    requires Enabled(s, st) && k < |s.clients| && s.clients[k].own == Some(o) && o.hold
    requires !(st.Call? && st.c == k && st.watch)
    requires Shows(Now(Do(s, st).world, o.id), o.key, o.val)
    ensures Do(s, st).clients[k].own == Some(o)
  {
    hide Move, Apply, Published;
  }

  lemma {:induction false} ObservedRun(states: seq<Sys>, steps: seq<Step>, i: nat, j: nat, k: nat, url: string,
                                       key: string, val: Value, id: Id)
    requires Run(states, steps) && Writes(states, steps, i, k, url, key, val, id) && i < j < |states|
    requires forall m | i < m < j :: !(steps[m].Call? && steps[m].c == k && steps[m].watch)
    requires forall m | i < m <= j :: Shows(Now(states[m].world, id), key, val)
    ensures k < |states[j].clients| && states[j].clients[k].own == Some(Own(url, id, key, val, true))
  {
    hide Do, Enabled, Init, Shows, Now, Apply;
    if j == i + 1 {
      WriteObserved(states[i], k, url, key, val, id);
      StepClients(states[i], steps[i]);
    } else {
      ObservedRun(states, steps, i, j - 1, k, url, key, val, id);
      StepClients(states[j - 1], steps[j - 1]);
      assert states[j - 1 + 1] == states[j] && Shows(Now(states[j].world, id), key, val);
      ObservedStays(states[j - 1], steps[j - 1], k, Own(url, id, key, val, true));
    }
  }

  /** A client's own write: as long as the value is there, every read that succeeds shows it,
      however late the notices are. */
  lemma ReadYourWrites(states: seq<Sys>, steps: seq<Step>, i: nat, j: nat, k: nat, url: string,
                       key: string, val: Value, id: Id)
    requires Run(states, steps) && Writes(states, steps, i, k, url, key, val, id) && i < j < |steps|
    requires forall m | i < m < j :: !(steps[m].Call? && steps[m].c == k && steps[m].watch)
    requires forall m | i < m <= j :: Shows(Now(states[m].world, id), key, val)
    requires Result(states[j], steps[j]).Some?
    requires var g := Result(states[j], steps[j]).value; g.ok && g.c == k && g.url == url
    ensures Shows(Result(states[j], steps[j]).value.value, key, val)
  {
    ObservedRun(states, steps, i, j, k, url, key, val, id);
    RunInv(states, steps, j);
    OwnShown(states[j], steps[j], k, Own(url, id, key, val, true));
  }

  lemma OwnShown(s: Sys, st: Step, k: nat, o: Own)
    requires Inv(s) && Enabled(s, st) && k < |s.clients| && s.clients[k].own == Some(o) && o.hold
    requires Result(s, st).Some?
    requires var g := Result(s, st).value; g.ok && g.c == k && g.url == o.url
    ensures Shows(Result(s, st).value.value, o.key, o.val)
  {
    hide GoodWorld, AtUrl, Canonical, Shows, Now, Names;
    assert ClientOk(s.world, s.clients[k]);
  }
}
