/** What closing a URL comes to: once the reader thread has taken it over, the URL is closed, and what
    can open it again. */
module Closing {
  import opened Paths
  import opened Options
  import opened AdvertStore
  import opened ConnectionState
  import opened CacheProtocol
  import opened CacheCoherence
  import opened AdvertAdaptor

  // ------------------------------------------------------------------ one connection

  lemma {:induction false} DrainSnoc(c: Connection, h: Handover)
    ensures Drained(c.(pipe := c.pipe + [h])) == TakeHandover(Drained(c).(pipe := [h]))
    ensures Drained(c).pipe == [] && Drained(c).idMap == c.idMap && Drained(c).nodeMap == c.nodeMap
    decreases |c.pipe|
  {
    var d := c.(pipe := c.pipe + [h]);
    if c.pipe == [] {
      assert d.pipe == [h];
      assert Drained(d) == Drained(TakeHandover(d));
    } else {
      assert d.pipe[1..] == c.pipe[1..] + [h] && d.pipe[0] == c.pipe[0];
      DrainSnoc(TakeHandover(c), h);
      assert TakeHandover(d) == TakeHandover(c).(pipe := TakeHandover(c).pipe + [h]);
    }
  }

  /** With everything taken over, a closed URL is closed: its id is not flagged, of its subscriptions
      there is one less than without the close, and the next calls are refused.  Nothing else changes. */
  lemma CloseCloses(c: Connection, url: string, docs: Docs)
    ensures var id, d, without := IdOf(c, url), Drained(LetGo(c, url)), Drained(c);
            && id !in d.updateMap && d.subs[id] == (if without.subs[id] == 0 then 0 else without.subs[id] - 1)
            && (forall other | other != id :: d.subs[other] == without.subs[other])
            && (forall other | other != id :: other in d.updateMap <==> other in without.updateMap)
            && (forall other | other in d.updateMap :: d.updateMap[other] == without.updateMap[other])
            && d.pipe == [] && IdOf(d, url) == id && d.nodeMap == c.nodeMap
            && LookUp(d, url).1 == Closed && !GetValue(d, url, docs).1 && GetValue(d, url, docs).2 == None
  {
    hide Drained;
    var t := Touch(c, url);
    DrainSnoc(t, Unsub(IdOf(c, url)));
    TouchedDrains(c, url);
  }

  lemma {:induction false} TouchedDrains(c: Connection, url: string)
    ensures Drained(Touch(c, url)) == Touch(Drained(c), url) && Drained(c).idMap == c.idMap
    decreases |c.pipe|
  {
    if c.pipe != [] {
      TouchedDrains(TakeHandover(c), url);
      assert TakeHandover(Touch(c, url)) == Touch(TakeHandover(c), url);
    }
  }

  /** After that an "updated" notice opens the URL again exactly if a subscription is left: if the
      client had subscribed more than once. */
  lemma ReopenedIff(c: Connection, url: string)
    ensures var id, d := IdOf(c, url), Drained(LetGo(c, url));
            id in Receive(d, id, Updated).updateMap <==> Drained(c).subs[id] > 1
  {
    CloseCloses(c, url, map[]);
  }

  lemma SubsTaken(c: Connection, id: Id, n: nat)
    requires c.pipe == Subs(id, n) && n <= 2
    ensures Drained(c).subs == c.subs[id := c.subs[id] + n]
  {
    if n == 1 {
      assert Drained(c) == Drained(TakeHandover(c));
    } else if n == 2 {
      assert Drained(c) == Drained(TakeHandover(TakeHandover(c)));
    }
  }

  /** An advert constructed with just one of the create flags does not stay closed: the constructor
      subscribes twice, close unsubscribes once, and the next update of the node opens it again. */
  lemma AdvertReopensIff(c: Connection, s: Server, path: string, mode: Mode)
    requires Valid(s) && Constructed(c, s, path, mode).2 == Done
    requires GetPathArray(path) in Constructed(c, s, path, mode).1.docs && c.pipe == []
    requires c.subs[Constructed(c, s, path, mode).1.docs[GetPathArray(path)].id] == 0
    ensures var (c', s', _) := Constructed(c, s, path, mode);
            var id, d := s'.docs[GetPathArray(path)].id, Drained(LetGo(c', path));
            && LookUp(d, path).1 == Closed
            && (id in Receive(d, id, Updated).updateMap <==> Creates(mode) && !(mode.create && mode.parents))
  {
    hide Valid, Constructed, GetPathArray, Drained, LetGo, Receive, LookUp;
    ConstructedIff(c, s, path, mode);
    var (c', s', _) := Constructed(c, s, path, mode);
    assert [] + Subs(s'.docs[GetPathArray(path)].id, Subscriptions(mode)) == c'.pipe;
    SubsTaken(c', s'.docs[GetPathArray(path)].id, Subscriptions(mode));
    CloseCloses(c', path, map[]);
    ReopenedIff(c', path);
  }

  // ------------------------------------------------------------------ over runs

  /** The step flags `id` for client `k`: it takes an answer with that id, or hears of an update of it. */
  ghost predicate Raises(s: Sys, st: Step, k: nat, id: Id)
    requires k < |s.clients|
  {
    var c := s.clients[k];
    || (st == Return(k) && c.pending.Answered? && c.pending.id == id)
    || (st == Read(k) && c.inbox != [] && c.inbox[0].id == id && c.inbox[0].kind == Updated && id in c.conn.subs)
  }

  /** The steps of client `k` that touch its connection. */
  ghost predicate Touches(st: Step, k: nat) {
    || st == Return(k) || st == TakeOver(k) || st == Read(k) || st == Store(k)
    || (st.Close? && st.c == k) || (st.Look? && st.c == k)
  }

  lemma OthersLeave(s: Sys, st: Step, k: nat)
    requires Enabled(s, st) && k < |s.clients|
    ensures |Do(s, st).clients| == |s.clients|
    ensures !Touches(st, k) ==> Do(s, st).clients[k].conn == s.clients[k].conn
  {
    hide Move, Apply, Published, Canonical, Enumerates, AfterReturn, AfterRead, AfterLook, AfterStore, LetGo, TakeHandover;
  }

  /** An id that is not flagged is flagged by these steps, and by no other. */
  lemma FlaggedIff(s: Sys, st: Step, k: nat, id: Id)
    requires Enabled(s, st) && k < |s.clients| && id !in s.clients[k].conn.updateMap
    ensures |Do(s, st).clients| == |s.clients|
    ensures id in Do(s, st).clients[k].conn.updateMap <==> Raises(s, st, k, id)
  {
    OthersLeave(s, st, k);
    if Touches(st, k) {
      OwnFlags(s, st, k, id);
    }
  }

  lemma OwnFlags(s: Sys, st: Step, k: nat, id: Id)
    requires Enabled(s, st) && k < |s.clients| && id !in s.clients[k].conn.updateMap && Touches(st, k)
    ensures |Do(s, st).clients| == |s.clients|
    ensures id in Do(s, st).clients[k].conn.updateMap <==> Raises(s, st, k, id)
  {
    hide Move, Apply, Published, Canonical, Enumerates, AfterFlush, AfterCall, AfterServe, Observe;
  }

  /** The client is closed at `id`, or will be once it has taken over what is on its pipe. */
  ghost predicate ClosingAt(c: Client, id: Id) {
    id !in c.conn.updateMap || Unsub(id) in c.conn.pipe
  }

  lemma StepClosing(s: Sys, st: Step, k: nat, id: Id)
    requires Enabled(s, st) && k < |s.clients| && ClosingAt(s.clients[k], id) && !Raises(s, st, k, id)
    ensures |Do(s, st).clients| == |s.clients| && ClosingAt(Do(s, st).clients[k], id)
  {
    OthersLeave(s, st, k);
    if id !in s.clients[k].conn.updateMap {
      FlaggedIff(s, st, k, id);
    } else if Touches(st, k) {
      OwnClosing(s, st, k, id);
    }
  }

  lemma OwnClosing(s: Sys, st: Step, k: nat, id: Id)
    requires Enabled(s, st) && k < |s.clients| && Unsub(id) in s.clients[k].conn.pipe && Touches(st, k)
    ensures |Do(s, st).clients| == |s.clients| && ClosingAt(Do(s, st).clients[k], id)
  {
    hide Move, Apply, Published, Canonical, Enumerates, AfterFlush, AfterCall, AfterServe, Observe;
  }

  lemma CloseStarts(s: Sys, k: nat, url: string)
    requires Enabled(s, Close(k, url))
    ensures k < |Do(s, Close(k, url)).clients| == |s.clients|
    ensures ClosingAt(Do(s, Close(k, url)).clients[k], IdOf(s.clients[k].conn, url))
  {}

  /** A client that calls close stays closed at the id, until it takes an answer with it or hears of an
      update. */
  lemma {:induction false} CloseLasts(states: seq<Sys>, steps: seq<Step>, i: nat, m: nat, k: nat, url: string, id: Id)
    requires Run(states, steps) && i < m < |states| && steps[i] == Close(k, url)
    requires forall j | 0 <= j < |states| :: k < |states[j].clients|
    requires id == IdOf(states[i].clients[k].conn, url)
    requires forall j | i < j < m :: !Raises(states[j], steps[j], k, id)
    ensures ClosingAt(states[m].clients[k], id)
    decreases m
  {
    hide Do, Enabled, ClosingAt, Raises, Init, IdOf;
    if m == i + 1 {
      CloseStarts(states[i], k, url);
    } else {
      CloseLasts(states, steps, i, m - 1, k, url, id);
      StepClosing(states[m - 1], steps[m - 1], k, id);
    }
  }

  /** So once the hand-over is taken, `get_value` is refused at every URL the client has the id for. */
  lemma ClosedIsRefused(states: seq<Sys>, steps: seq<Step>, i: nat, m: nat, k: nat, url: string, id: Id, u: string)
    requires Run(states, steps) && i < m < |states| && steps[i] == Close(k, url)
    requires forall j | 0 <= j < |states| :: k < |states[j].clients|
    requires id == IdOf(states[i].clients[k].conn, url)
    requires forall j | i < j < m :: !Raises(states[j], steps[j], k, id)
    requires Unsub(id) !in states[m].clients[k].conn.pipe && IdOf(states[m].clients[k].conn, u) == id
    ensures Result(states[m], Look(k, u)) == Some(Got(k, u, false, None, 0))
  {
    hide Do, Enabled, Raises, Init, IdOf, Run;
    CloseLasts(states, steps, i, m, k, url, id);
    RefusedAt(states[m], k, u);
  }

  lemma RefusedAt(s: Sys, k: nat, u: string)
    requires k < |s.clients| && IdOf(s.clients[k].conn, u) !in s.clients[k].conn.updateMap
    ensures Result(s, Look(k, u)) == Some(Got(k, u, false, None, 0))
  {}

  /** Not flagged, and with no subscription or one to come. */
  ghost predicate Shut(c: Client, id: Id) {
    id !in c.conn.updateMap && !Watched(c, id)
  }

  lemma StepShut(s: Sys, st: Step, k: nat, id: Id)
    requires Enabled(s, st) && k < |s.clients| && Shut(s.clients[k], id)
    requires st == Return(k) ==> !(s.clients[k].pending.Answered? && s.clients[k].pending.id == id)
    ensures |Do(s, st).clients| == |s.clients| && Shut(Do(s, st).clients[k], id)
  {
    OthersLeave(s, st, k);
    FlaggedIff(s, st, k, id);
    if Touches(st, k) {
      OwnWatches(s, st, k, id);
    }
  }

  ghost predicate Unwatched(c: Connection, id: Id) {
    id !in c.subs && Sub(id) !in c.pipe
  }

  /** None of the things a connection's threads do to it subscribes, but taking an answer. */
  lemma StaysUnwatched(c: Connection, id: Id, m: Id, kind: Kind, url: string, answer: Option<Doc>)
    requires Unwatched(c, id)
    ensures Unwatched(Receive(c, m, kind), id) && Unwatched(LookUp(c, url).0, id) && Unwatched(LetGo(c, url), id)
    ensures Unwatched(Deliver(c, url), id) && Unwatched(StoreAnswer(c, url, answer), id)
    ensures c.pipe != [] ==> Unwatched(TakeHandover(c), id)
  {}

  lemma AnswerUnwatched(c: Connection, id: Id, url: string, other: Id, subscribe: bool)
    requires Unwatched(c, id) && id != other
    ensures Unwatched(TakeAnswer(c, url, other, subscribe), id)
  {}

  lemma OwnWatches(s: Sys, st: Step, k: nat, id: Id)
    requires Enabled(s, st) && k < |s.clients| && !Watched(s.clients[k], id) && Touches(st, k)
    requires st == Return(k) ==> !(s.clients[k].pending.Answered? && s.clients[k].pending.id == id)
    ensures |Do(s, st).clients| == |s.clients| && !Watched(Do(s, st).clients[k], id)
  {
    hide Move, Apply, Published, Canonical, Enumerates, AfterFlush, AfterCall, AfterServe, Observe, Unwatched;
    hide Receive, LookUp, LetGo, Deliver, StoreAnswer, TakeHandover, TakeAnswer;
    var c := s.clients[k];
    IsUnwatched(c, id);
    IsUnwatched(Do(s, st).clients[k], id);
    match st
    case Return(_) =>
      if c.pending.Answered? {
        AnswerUnwatched(c.conn, id, c.pending.url, c.pending.id, c.pending.subscribe);
      } else {
        StaysUnwatched(c.conn, id, id, Updated, c.pending.url, None);
      }
    case Close(_, url) => StaysUnwatched(c.conn, id, id, Updated, url, None);
    case TakeOver(_) => StaysUnwatched(c.conn, id, id, Updated, "", None);
    case Read(_) => StaysUnwatched(c.conn, id, c.inbox[0].id, c.inbox[0].kind, "", None);
    case Look(_, url) =>
      StaysUnwatched(c.conn, id, id, Updated, url, None);
      StaysUnwatched(LookUp(c.conn, url).0, id, id, Updated, url, None);
    case Store(_) =>
      var p := c.pending;
      StaysUnwatched(c.conn, id, id, Updated, p.url, p.answer);
      StaysUnwatched(StoreAnswer(c.conn, p.url, p.answer), id, id, Updated, p.url, None);
  }

  lemma IsUnwatched(c: Client, id: Id)
    ensures Unwatched(c.conn, id) <==> !Watched(c, id)
  {}

  /** Where no subscription is left, only an answer can open the id again. */
  lemma {:induction false} ShutLasts(states: seq<Sys>, steps: seq<Step>, i: nat, m: nat, k: nat, id: Id)
    requires Run(states, steps) && i <= m < |states|
    requires forall j | 0 <= j < |states| :: k < |states[j].clients|
    requires Shut(states[i].clients[k], id)
    requires forall j | i <= j < m && steps[j] == Return(k) ::
               !(states[j].clients[k].pending.Answered? && states[j].clients[k].pending.id == id)
    ensures Shut(states[m].clients[k], id)
    decreases m
  {
    hide Do, Enabled, Shut, Init;
    if i < m {
      ShutLasts(states, steps, i, m - 1, k, id);
      StepShut(states[m - 1], steps[m - 1], k, id);
    }
  }
}
