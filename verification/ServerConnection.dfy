/** The connection object: its methods update the three maps in place. */
module ServerConnectionModule {
  import opened Options
  import opened AdvertStore
  import opened ConnectionState
  import opened AdvertServerModule

  class ServerConnection {
    var idMap: map<string, Id>
    var updateMap: map<Id, bool>
    var nodeMap: map<string, Option<Doc>>
    var subs: multiset<Id>
    var pipe: seq<Handover>

    ghost function State(): Connection
      reads this
    {
      Connection(idMap, updateMap, nodeMap, subs, pipe)
    }

    constructor ()
      ensures State() == NewConnection()
    {
      idMap, updateMap, nodeMap, subs, pipe := map[], map[], map[], multiset{}, [];
    }

    /** `(*_id_map)[url]` */
    method IdAt(url: string) returns (id: Id)
      modifies this`idMap
      ensures State() == Touch(old(State()), url) && id == IdOf(old(State()), url)
    {
      if url !in idMap {
        idMap := idMap[url := NO_ID];
      }
      id := idMap[url];
      assert idMap == old(idMap)[url := id];
    }

    method Subscribe(id: Id)
      modifies this`subs
      ensures subs == old(subs) + multiset{id}
    {
      subs := subs + multiset{id};
    }

    method Unsubscribe(id: Id)
      modifies this`subs
      ensures subs == old(subs) - multiset{id}
    {
      subs := subs - multiset{id};
    }

    /** `_update_map->find` and `erase` */
    method EraseFlag(id: Id)
      modifies this`updateMap
      ensures updateMap == old(updateMap) - {id}
    {
      if id in updateMap {
        updateMap := updateMap - {id};
      }
    }

    /** The reader loop's branch for the subscriber socket, over a batch that has come in. */
    method ReadMessages(batch: seq<(Id, Kind)>)
      modifies this`updateMap, this`subs
      ensures State() == ReceiveAll(old(State()), batch)
    {
      ghost var c := State();
      var i := 0;
      while i < |batch|
        invariant i <= |batch|
        invariant ReceiveAll(c, batch) == ReceiveAll(State(), batch[i..])
        invariant State().(updateMap := c.updateMap, subs := c.subs) == c
      {
        var (id, kind) := batch[i];
        assert batch[i..][0] == batch[i] && batch[i..][1..] == batch[i + 1..];
        if id in subs {
          if kind == Updated {
            updateMap := updateMap[id := true];
          }
          if kind == Removed {
            Unsubscribe(id);
            EraseFlag(id);
          }
        }
        i := i + 1;
      }
    }

    /** The reader loop's branch for the in-process pipe. */
    method ReadHandover()
      requires pipe != []
      modifies this
      ensures State() == TakeHandover(old(State()))
    {
      var message := pipe[0];
      pipe := pipe[1..];
      match message
      case Sub(id) => Subscribe(id);
      case Unsub(id) =>
        Unsubscribe(id);
        EraseFlag(id);
    }

    /** As often as there is something on it. */
    method ReadHandovers()
      modifies this
      ensures State() == Drained(old(State()))
    {
      while pipe != []
        invariant Drained(old(State())) == Drained(State())
        decreases |pipe|
      {
        ReadHandover();
      }
    }

    /** The locked part of `get_value`. */
    method LookUpFlag(url: string) returns (state: bool, needsUpdate: bool, id: Id)
      modifies this`idMap, this`updateMap
      ensures var (c, look) := LookUp(old(State()), url);
              State() == c && state == !look.Closed? && needsUpdate == look.Dirty?
      ensures id == IdOf(old(State()), url)
    {
      id := IdAt(url);
      state, needsUpdate := true, false;
      if id !in updateMap {
        state := false;
      } else {
        needsUpdate := updateMap[id];
        updateMap := updateMap[id := false];
      }
    }

    /** A `get_value` whose request `server` answers before anything else happens. */
    method GetValue(url: string, server: AdvertServer) returns (state: bool, ret: Option<Doc>)
      requires Valid(server.State())
      modifies this
      ensures var (c, ok, value) := ConnectionState.GetValue(old(State()), url, server.docs);
              State() == c && state == ok && ret == value
    {
      var needsUpdate, id;
      state, needsUpdate, id := LookUpFlag(url);
      ret := None;
      if needsUpdate {
        var answer := server.Get(id);
        if answer.Some? {
          nodeMap := nodeMap[url := answer];
        } else {
          state := false;
        }
      }
      if state {
        if url !in nodeMap {
          nodeMap := nodeMap[url := None];
        }
        ret := nodeMap[url];
      }
      assert url in nodeMap ==> nodeMap[url := nodeMap[url]] == nodeMap;
    }

    method GetState(url: string) returns (state: bool)
      modifies this`idMap
      ensures State() == Touch(old(State()), url) && state == (IdOf(old(State()), url) in updateMap)
    {
      var id := IdAt(url);
      state := id in updateMap;
    }

    /** What the calls do once `reply` is there: open and the two creates subscribe, the attribute
        and string calls do not. */
    method OnReply(url: string, reply: Reply, subscribe: bool)
      modifies this
      ensures State() == if reply.OkId? then TakeAnswer(old(State()), url, reply.id, subscribe) else old(State())
    {
      if reply.OkId? {
        idMap := idMap[url := reply.id];
        updateMap := updateMap[reply.id := true];
        if subscribe {
          pipe := pipe + [Sub(reply.id)];
        }
      }
    }

    method CloseDirectory(url: string)
      modifies this
      ensures State() == LetGo(old(State()), url)
      ensures pipe == old(pipe) + [Unsub(IdOf(old(State()), url))] && subs == old(subs) && updateMap == old(updateMap)
    {
      var id := IdAt(url);
      pipe := pipe + [Unsub(id)];
    }

    method OnRemoveReply(url: string, reply: Reply)
      modifies this
      ensures State() == if reply.OkRemoved? then LetGo(old(State()), url) else old(State())
      ensures pipe == old(pipe) + (if reply.OkRemoved? then [Unsub(IdOf(old(State()), url))] else [])
    {
      if reply.OkRemoved? {
        CloseDirectory(url);
      }
    }
  }
}
