/** The message queue keeps one notice per id between flushes; nothing is lost by that. */
module Coalescing {
  import opened Options
  import opened AdvertStore
  import opened AdvertCommands
  import opened ConnectionState

  type Event = (Id, Kind)

  /** `messageQueue[id] = kind` for one event after the other. */
  function Coalesce(queue: map<Id, Kind>, events: seq<Event>): map<Id, Kind>
    decreases |events|
  {
    if events == [] then queue else Coalesce(queue[events[0].0 := events[0].1], events[1..])
  }

  /** After an id is removed nothing more happens to it. */
  ghost predicate RemovedFinal(events: seq<Event>) {
    forall i, j | 0 <= i < j < |events| && events[i].1 == Removed :: events[j].0 != events[i].0
  }

  function LastKind(events: seq<Event>, id: Id): Option<Kind>
    decreases |events|
  {
    if events == [] then None
    else
      var rest := LastKind(events[1..], id);
      if rest.Some? then rest else if events[0].0 == id then Some(events[0].1) else None
  }

  /** The messages of a flush that publishes `queue` in the order `order`. */
  function Batch(order: seq<Id>, queue: map<Id, Kind>): seq<Event>
    requires forall id | id in order :: id in queue
  {
    seq(|order|, i requires 0 <= i < |order| => (order[i], queue[order[i]]))
  }

  ghost predicate Distinct(order: seq<Id>) {
    forall i, j | 0 <= i < j < |order| :: order[i] != order[j]
  }

  lemma {:induction false} LastKindNone(events: seq<Event>, id: Id)
    ensures LastKind(events, id).None? <==> forall i | 0 <= i < |events| :: events[i].0 != id
  {
    if events != [] {
      LastKindNone(events[1..], id);
      assert forall i | 0 < i < |events| :: events[i] == events[1..][i - 1];
    }
  }

  lemma {:induction false} CoalesceLast(queue: map<Id, Kind>, events: seq<Event>, id: Id)
    ensures var q, k := Coalesce(queue, events), LastKind(events, id);
            if k.Some? then id in q && q[id] == k.value
            else (id in q <==> id in queue) && (id in queue ==> q[id] == queue[id])
    decreases |events|
  {
    if events != [] {
      CoalesceLast(queue[events[0].0 := events[0].1], events[1..], id);
    }
  }

  lemma {:induction false} LastKindAt(events: seq<Event>, i: nat)
    requires i < |events| && forall j | i < j < |events| :: events[j].0 != events[i].0
    ensures LastKind(events, events[i].0) == Some(events[i].1)
    decreases |events|
  {
    if i == 0 {
      assert forall j | 0 <= j < |events[1..]| :: events[1..][j] == events[j + 1];
      LastKindNone(events[1..], events[0].0);
    } else {
      assert events[1..][i - 1] == events[i];
      assert forall j | 0 <= j < |events[1..]| :: events[1..][j] == events[j + 1];
      LastKindAt(events[1..], i - 1);
    }
  }

  lemma BatchLast(order: seq<Id>, queue: map<Id, Kind>, id: Id)
    requires Distinct(order) && forall x :: x in order <==> x in queue
    ensures LastKind(Batch(order, queue), id) == if id in queue then Some(queue[id]) else None
    ensures RemovedFinal(Batch(order, queue))
  {
    if id in order {
      var i :| 0 <= i < |order| && order[i] == id;
      LastKindAt(Batch(order, queue), i);
    } else {
      LastKindNone(Batch(order, queue), id);
    }
  }

  /** The flag of `id`, if there is one. */
  function Flag(c: Connection, id: Id): Option<bool> {
    if id in c.updateMap then Some(c.updateMap[id]) else None
  }

  /** What receiving events does to one id depends on the last of them alone. */
  lemma {:induction false} ReceiveAllAt(c: Connection, events: seq<Event>, id: Id)
    requires RemovedFinal(events)
    ensures var r, k := ReceiveAll(c, events), LastKind(events, id);
            if id !in c.subs || k.None? then r.subs[id] == c.subs[id] && Flag(r, id) == Flag(c, id)
            else if k.value == Removed then r.subs[id] == c.subs[id] - 1 && Flag(r, id) == None
            else r.subs[id] == c.subs[id] && Flag(r, id) == Some(true)
    decreases |events|
  {
    if events != [] {
      assert forall j | 0 <= j < |events[1..]| :: events[1..][j] == events[j + 1];
      ReceiveAllAt(Receive(c, events[0].0, events[0].1), events[1..], id);
      if events[0].1 == Removed {
        LastKindNone(events[1..], events[0].0);
      }
    }
  }

  lemma {:induction false} ReceiveAllFrame(c: Connection, events: seq<Event>)
    ensures ReceiveAll(c, events) == c.(updateMap := ReceiveAll(c, events).updateMap, subs := ReceiveAll(c, events).subs)
    decreases |events|
  {
    if events != [] {
      ReceiveAllFrame(Receive(c, events[0].0, events[0].1), events[1..]);
    }
  }

  /** Delivering the flushed batch, in any order of its ids, leaves a connection exactly as
      delivering every event since the last flush in order. */
  lemma CoalescingLosesNothing(c: Connection, events: seq<Event>, order: seq<Id>)
    requires RemovedFinal(events)
    requires Distinct(order) && forall id :: id in order <==> id in Coalesce(map[], events)
    ensures ReceiveAll(c, Batch(order, Coalesce(map[], events))) == ReceiveAll(c, events)
  {
    var batch := Batch(order, Coalesce(map[], events));
    var r, r' := ReceiveAll(c, events), ReceiveAll(c, batch);
    forall id ensures r.subs[id] == r'.subs[id] && Flag(r, id) == Flag(r', id) {
      CoalesceLast(map[], events, id);
      BatchLast(order, Coalesce(map[], events), id);
      ReceiveAllAt(c, events, id);
      ReceiveAllAt(c, batch, id);
    }
    forall id ensures (id in r.updateMap <==> id in r'.updateMap) && (id in r.updateMap ==> r.updateMap[id] == r'.updateMap[id]) {
      assert Flag(r, id) == Flag(r', id);
    }
    assert r.updateMap == r'.updateMap && r.subs == r'.subs;
    ReceiveAllFrame(c, events);
    ReceiveAllFrame(c, batch);
  }

  // ------------------------------------------------------------------ the events of a run of commands

  /** `log` lists the notices of one command, each id once. */
  ghost predicate Logs(log: seq<Event>, notices: map<Id, Kind>) {
    && (forall i, j | 0 <= i < j < |log| :: log[i].0 != log[j].0)
    && (forall i | 0 <= i < |log| :: log[i].0 in notices && notices[log[i].0] == log[i].1)
    && (forall id | id in notices :: exists i :: 0 <= i < |log| && log[i].0 == id)
  }

  function StateAfter(s: Server, cmds: seq<Command>): Server
    decreases |cmds|
  {
    if cmds == [] then s else StateAfter(Apply(s, cmds[0]).0, cmds[1..])
  }

  /** `events` is what the commands announce, one command after the other. */
  ghost predicate Announces(s: Server, cmds: seq<Command>, events: seq<Event>)
    decreases |cmds|
  {
    if cmds == [] then events == []
    else exists n ::
      && 0 <= n <= |events|
      && Logs(events[..n], EffectOf(s, cmds[0]).notices)
      && Announces(Apply(s, cmds[0]).0, cmds[1..], events[n..])
  }

  lemma {:induction false} LogLast(log: seq<Event>, notices: map<Id, Kind>, id: Id)
    requires Logs(log, notices)
    ensures LastKind(log, id) == if id in notices then Some(notices[id]) else None
  {
    if id in notices {
      var i :| 0 <= i < |log| && log[i].0 == id;
      LastKindAt(log, i);
    } else {
      LastKindNone(log, id);
    }
  }

  lemma LogCoalesces(queue: map<Id, Kind>, log: seq<Event>, notices: map<Id, Kind>)
    requires Logs(log, notices)
    ensures Coalesce(queue, log) == queue + notices
  {
    forall id ensures (id in Coalesce(queue, log) <==> id in queue + notices)
      && (id in queue + notices ==> Coalesce(queue, log)[id] == (queue + notices)[id])
    {
      CoalesceLast(queue, log, id);
      LogLast(log, notices, id);
    }
  }

  lemma {:induction false} CoalesceAppend(queue: map<Id, Kind>, a: seq<Event>, b: seq<Event>)
    ensures Coalesce(queue, a + b) == Coalesce(Coalesce(queue, a), b)
    decreases |a|
  {
    if a == [] {
      assert a + b == b;
    } else {
      assert (a + b)[1..] == a[1..] + b;
      CoalesceAppend(queue[a[0].0 := a[0].1], a[1..], b);
    }
  }

  /** An id that is gone is never announced again. */
  lemma {:induction false} GoneIsQuiet(s: Server, cmds: seq<Command>, events: seq<Event>, id: Id)
    requires Valid(s) && Announces(s, cmds, events) && id < s.nextId && !Live(s.docs, id)
    ensures forall i | 0 <= i < |events| :: events[i].0 != id
    decreases |cmds|
  {
    if cmds != [] {
      hide Valid, EffectOf, RemovedFinal;
      var n :| 0 <= n <= |events| && Logs(events[..n], EffectOf(s, cmds[0]).notices)
            && Announces(Apply(s, cmds[0]).0, cmds[1..], events[n..]);
      ApplyKeepsValid(s, cmds[0]);
      GoneStaysGone(s, cmds[0], id);
      GoneIsQuiet(Apply(s, cmds[0]).0, cmds[1..], events[n..], id);
      forall i | 0 <= i < |events| ensures events[i].0 != id {
        assert i < n ==> events[i] == events[..n][i];
        assert i >= n ==> events[i] == events[n..][i - n];
      }
    }
  }

  lemma GoneStaysGone(s: Server, cmd: Command, id: Id)
    requires Valid(s) && id < s.nextId && !Live(s.docs, id)
    ensures id !in EffectOf(s, cmd).notices && id < Apply(s, cmd).0.nextId && !Live(Apply(s, cmd).0.docs, id)
  {
    hide EffectOf, WellFormed;
    EffectAnnounced(s, cmd);
    ApplyAnnounces(s, cmd, id);
  }

  lemma FinalAppend(log: seq<Event>, rest: seq<Event>)
    requires (forall i, j | 0 <= i < j < |log| :: log[i].0 != log[j].0) && RemovedFinal(rest)
    requires forall i | 0 <= i < |log| && log[i].1 == Removed :: forall j | 0 <= j < |rest| :: rest[j].0 != log[i].0
    ensures RemovedFinal(log + rest)
  {
    var all, n := log + rest, |log|;
    forall i, j | 0 <= i < j < |all| && all[i].1 == Removed ensures all[j].0 != all[i].0 {
      if i >= n {
        assert rest[i - n] == all[i] && rest[j - n] == all[j];
      } else if j >= n {
        assert log[i] == all[i] && rest[j - n] == all[j];
      }
    }
  }

  lemma RunStep(s: Server, cmds: seq<Command>, log: seq<Event>, rest: seq<Event>)
    requires Valid(s) && cmds != [] && Logs(log, EffectOf(s, cmds[0]).notices)
    requires Announces(Apply(s, cmds[0]).0, cmds[1..], rest) && RemovedFinal(rest)
    ensures RemovedFinal(log + rest) && Coalesce(s.queue, log) == Apply(s, cmds[0]).0.queue
  {
    hide EffectOf, RemovedFinal, Valid, Announces;
    LogCoalesces(s.queue, log, EffectOf(s, cmds[0]).notices);
    forall i | 0 <= i < |log| && log[i].1 == Removed
      ensures forall j | 0 <= j < |rest| :: rest[j].0 != log[i].0
    {
      RemovedIsGone(s, cmds[0], log[i].0);
      ApplyKeepsValid(s, cmds[0]);
      GoneIsQuiet(Apply(s, cmds[0]).0, cmds[1..], rest, log[i].0);
    }
    FinalAppend(log, rest);
  }

  lemma CoalesceCut(queue: map<Id, Kind>, events: seq<Event>, n: nat)
    requires n <= |events|
    ensures events == events[..n] + events[n..]
    ensures Coalesce(queue, events) == Coalesce(Coalesce(queue, events[..n]), events[n..])
  {
    assert events == events[..n] + events[n..];
    CoalesceAppend(queue, events[..n], events[n..]);
  }

  /** The queue of a running server is what coalescing leaves of the events since the last flush,
      and among these events "removed" is final. */
  lemma {:induction false} QueueIsCoalesced(s: Server, cmds: seq<Command>, events: seq<Event>)
    requires Valid(s) && Announces(s, cmds, events)
    ensures StateAfter(s, cmds).queue == Coalesce(s.queue, events) && RemovedFinal(events)
    decreases |cmds|
  {
    if cmds != [] {
      hide Valid, Apply, EffectOf, Logs, RemovedFinal;
      var n :| 0 <= n <= |events| && Logs(events[..n], EffectOf(s, cmds[0]).notices)
            && Announces(Apply(s, cmds[0]).0, cmds[1..], events[n..]);
      ApplyKeepsValid(s, cmds[0]);
      QueueIsCoalesced(Apply(s, cmds[0]).0, cmds[1..], events[n..]);
      RunStep(s, cmds, events[..n], events[n..]);
      CoalesceCut(s.queue, events, n);
    } else {
      assert events == [];
    }
  }

  /** So what a client gets from a flush is what it would have got event by event: for commands run
      from an empty queue, delivering the flushed queue in any order of its ids leaves a connection
      exactly as delivering all that the commands announced. */
  lemma FlushTellsAll(s: Server, cmds: seq<Command>, events: seq<Event>, c: Connection, order: seq<Id>)
    requires Valid(s) && s.queue == map[] && Announces(s, cmds, events)
    requires Distinct(order) && forall id :: id in order <==> id in StateAfter(s, cmds).queue
    ensures ReceiveAll(c, Batch(order, StateAfter(s, cmds).queue)) == ReceiveAll(c, events)
  {
    hide Valid, StateAfter, Announces;
    QueueIsCoalesced(s, cmds, events);
    CoalescingLosesNothing(c, events, order);
  }

  lemma RemovedIsGone(s: Server, cmd: Command, id: Id)
    requires Valid(s) && id in EffectOf(s, cmd).notices && EffectOf(s, cmd).notices[id] == Removed
    ensures id < Apply(s, cmd).0.nextId && !Live(Apply(s, cmd).0.docs, id)
  {
    hide EffectOf, WellFormed;
    EffectAnnounced(s, cmd);
  }
}
