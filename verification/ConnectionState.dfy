/** The client's connection: its three maps and its subscriptions, and what each piece of its code
    does to them, as values. */
module ConnectionState {
  import opened Options
  import opened AdvertStore

  /** What `operator[]` yields for a URL that was never opened: the empty id. */
  const NO_ID: Id := 0

  /** Messages of the application thread to the reader thread. */
  datatype Handover = Sub(id: Id) | Unsub(id: Id)

  /** `nodeMap` holds parsed JSON; None is the null value that `operator[]` inserts.  A
      subscription is counted, as the sockets count them. */
  datatype Connection = Connection(idMap: map<string, Id>, updateMap: map<Id, bool>,
                                   nodeMap: map<string, Option<Doc>>, subs: multiset<Id>, pipe: seq<Handover>)

  function NewConnection(): Connection {
    Connection(map[], map[], map[], multiset{}, [])
  }

  function IdOf(c: Connection, url: string): Id {
    if url in c.idMap then c.idMap[url] else NO_ID
  }

  /** `(*_id_map)[url]`, which inserts the empty id for an unknown URL. */
  function Touch(c: Connection, url: string): Connection {
    c.(idMap := c.idMap[url := IdOf(c, url)])
  }

  // ------------------------------------------------------------------ the reader thread

  /** One message off the subscriber socket, which drops what is not subscribed. */
  function Receive(c: Connection, id: Id, kind: Kind): Connection {
    if id !in c.subs then c
    else
      match kind
      case Updated => c.(updateMap := c.updateMap[id := true])
      case Removed => c.(subs := c.subs - multiset{id}, updateMap := c.updateMap - {id})
  }

  /** Receive the messages of `batch` one after the other. */
  function ReceiveAll(c: Connection, batch: seq<(Id, Kind)>): Connection
    decreases |batch|
  {
    if batch == [] then c else ReceiveAll(Receive(c, batch[0].0, batch[0].1), batch[1..])
  }

  /** One message off the in-process pipe. */
  function TakeHandover(c: Connection): Connection
    requires c.pipe != []
  {
    var id := c.pipe[0].id;
    match c.pipe[0]
    case Sub(_) => c.(pipe := c.pipe[1..], subs := c.subs + multiset{id})
    case Unsub(_) => c.(pipe := c.pipe[1..], subs := c.subs - multiset{id}, updateMap := c.updateMap - {id})
  }

  /** All that is on it, one after the other. */
  function Drained(c: Connection): Connection
    decreases |c.pipe|
  {
    if c.pipe == [] then c else Drained(TakeHandover(c))
  }

  // ------------------------------------------------------------------ the application thread

  datatype Look = Closed | Clean | Dirty

  /** The locked part of `get_value`: find the flag and clear it. */
  function LookUp(c: Connection, url: string): (Connection, Look) {
    var t := Touch(c, url);
    var id := IdOf(c, url);
    if id !in t.updateMap then (t, Closed)
    else (t.(updateMap := t.updateMap[id := false]), if t.updateMap[id] then Dirty else Clean)
  }

  /** The rest of `get_value` after an answer to its request: None stands for "error". */
  function StoreAnswer(c: Connection, url: string, answer: Option<Doc>): Connection {
    if answer.Some? then c.(nodeMap := c.nodeMap[url := answer]) else c
  }

  function Cached(c: Connection, url: string): Option<Doc> {
    if url in c.nodeMap then c.nodeMap[url] else None
  }

  /** `ret = (*_node_map)[url]`, which inserts null for a URL never fetched. */
  function Deliver(c: Connection, url: string): Connection {
    c.(nodeMap := c.nodeMap[url := Cached(c, url)])
  }

  /** What every successful call but remove does with the id it is answered. */
  function TakeAnswer(c: Connection, url: string, id: Id, subscribe: bool): Connection {
    c.(idMap := c.idMap[url := id], updateMap := c.updateMap[id := true],
       pipe := if subscribe then c.pipe + [Sub(id)] else c.pipe)
  }

  /** What close, and remove once it is answered, do. */
  function LetGo(c: Connection, url: string): Connection {
    Touch(c, url).(pipe := c.pipe + [Unsub(IdOf(c, url))])
  }

  /** A whole `get_value` during which nothing else happens; `docs` is the server's collection. */
  ghost function GetValue(c: Connection, url: string, docs: Docs): (Connection, bool, Option<Doc>) {
    var (t, look) := LookUp(c, url);
    match look
    case Closed => (t, false, None)
    case Clean => (Deliver(t, url), true, Cached(t, url))
    case Dirty =>
      var answer := Find(docs, IdOf(c, url));
      var u := StoreAnswer(t, url, answer);
      if answer.Some? then (Deliver(u, url), true, Cached(u, url)) else (u, false, None)
  }

  /** Two spellings of one path share the flag but not the cache: after a read through one of them,
      a read through the other succeeds with null.  The adaptors avoid this by normalizing paths. */
  lemma AliasReadsNull(c: Connection, url: string, alias: string, docs: Docs)
    requires url != alias && url in c.idMap && alias in c.idMap && c.idMap[url] == c.idMap[alias]
    requires c.idMap[url] in c.updateMap && c.updateMap[c.idMap[url]] && alias !in c.nodeMap
    ensures var (c1, _, _) := GetValue(c, url, docs);
            var (_, ok, value) := GetValue(c1, alias, docs);
            ok && value == None
  {
    var (c1, _, _) := GetValue(c, url, docs);
    assert alias !in c1.nodeMap && c1.updateMap[c1.idMap[alias]] == false;
  }

  /** All that a `get_value` does: it clears the flag of an open URL, keeps the document it fetches, and
      makes an entry for what it delivers. */
  lemma GetValueMeans(c: Connection, url: string, docs: Docs)
    ensures var id, (c', ok, value) := IdOf(c, url), GetValue(c, url, docs);
            var dirty := id in c.updateMap && c.updateMap[id];
            var shown := if dirty then Find(docs, id) else if url in c.nodeMap then c.nodeMap[url] else None;
            && (ok <==> id in c.updateMap && (dirty ==> Find(docs, id).Some?))
            && value == (if ok then shown else None)
            && c' == Connection(c.idMap[url := id], if id in c.updateMap then c.updateMap[id := false] else c.updateMap,
                                if ok then c.nodeMap[url := shown] else c.nodeMap, c.subs, c.pipe)
  {
    var answer := Find(docs, IdOf(c, url));
    assert c.nodeMap[url := answer][url := answer] == c.nodeMap[url := answer];
  }

  /** What a connection's threads do to its members one event at a time. */
  lemma EventsMean(c: Connection, url: string, id: Id, subscribe: bool)
    ensures TakeAnswer(c, url, id, subscribe) ==
            Connection(c.idMap[url := id], c.updateMap[id := true], c.nodeMap, c.subs,
                       c.pipe + if subscribe then [Sub(id)] else [])
    ensures c.pipe == [Sub(id)] ==> TakeHandover(c) == c.(subs := c.subs + multiset{id}, pipe := [])
    ensures c.pipe == [Unsub(id)] ==>
              TakeHandover(c) == c.(subs := c.subs - multiset{id}, updateMap := c.updateMap - {id}, pipe := [])
    ensures Receive(c, id, Updated) == if id in c.subs then c.(updateMap := c.updateMap[id := true]) else c
    ensures Receive(c, id, Removed) ==
            if id in c.subs then c.(subs := c.subs - multiset{id}, updateMap := c.updateMap - {id}) else c
  {
    assert c.pipe + [] == c.pipe;
  }
}
