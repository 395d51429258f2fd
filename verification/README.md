# Advert and job adaptors: a verified model

This project models the parts of a set of SAGA adaptors where correctness is not local, and proves what their
callers rely on.

**The asynchronous advert service.** A node.js server keeps a tree of adverts as documents keyed by path; each
document also lists its children.  Commands change documents and note the ids they change in a queue that holds one
notice per id and is published once a second.  Each client caches documents.  It holds a dirty flag per id, which its
reader thread sets when a notice arrives and erases when the node is removed; a read clears the flag before it
fetches.

- `AdvertStore`, `AdvertCommands`, `AdvertLaws`, `AdvertMeaning`: the tree, what every command keeps, how commands
  relate, and what each does to documents, queue and ids.
- `AdvertServer`, `ServerConnection`, `AdvertAdaptor`: the server, the connection and the advert object as classes
  whose methods change their fields in place, each tied to the functions that the theorems are about.
- `ConnectionState`, `CacheProtocol`: any number of clients and one server as a state machine.  A step is a served
  command, its caller taking the answer, a hand-over between a connection's two threads, a flush, one delivered
  message, and the three parts of a read: clear, served, stored.
- `CacheInvariant`, `CacheCoherence`, `CacheTheorems`, `StaleRead`, `GoneRead`, `Coalescing`: the invariants, what
  readers get from them, where they end, and why one notice per id is enough.
- `Closing`: what closing a URL comes to, and what opens it again.
- `ProtocolCode`: the state machine's steps, put together, are the calls of the classes.
- `Paths`, `PathNormalize`: path strings on both sides.

**The HBase namespace.** A tree encoded in flat rows `name-id` with a parent id, looked up by a prefix scan whose
result another function checks again.  `HbaseTable` is the table in key order, `HbaseForest` the tree it stands for,
`HbaseNamespace` the functions that scan and mutate it, `HbaseMeaning` what these do on any table; `HbaseRefinement`, `HbaseShadows`,
`HbaseTheorems`, `HbaseAttributes` and `HbaseIsolation` the proof that, and exactly when, the rows are the tree: a
sibling hides an entry if its key starts with the entry's name and sorts before the entry's own.

**The Thrift structs.** `ThriftProtocol` is a stream of typed tokens with the recursive skip; `ThriftStructs`,
`ThriftTheorems` and `ThriftStream` the read and write loops for any table of fields; `HbaseTypes`, `HbaseStructs` and
`HbaseWire` the loops as methods, the six structs, and their tokens.

**GridSAM job ids.** `JobId`: how they are printed and parsed.

## Assumptions

- A server command runs to completion before the next one starts.  `remove` answers before its callbacks end
  (advert_zmq_mongodb.js:398); the model has it answer after them.
- A connection has one application thread; its cache map is not under the mutex.
- Ids are never used again and are of one length, so that a subscription, which ZeroMQ matches by prefix, matches one
  id.  Subscriptions count, as in ZeroMQ.  Messages between one server and one client arrive in order and are not lost
  once the client is subscribed.
- A command that is never answered is no step: a set or remove on a missing path, and a remove attribute on a
  document that never had one, where the handler dereferences null.
- Callers pass normalized paths, as the adaptors do.  `ConnectionState.AliasReadsNull` shows what happens otherwise.
- Coherence of a client at an id lasts until a flush publishes a notice for that id at a moment when it does harm to
  that client there.  Flushes at any other time, other ids and other clients do not matter; in particular the queue may
  be published while a served call waits for its caller.  `CacheCoherence.FlushCoherentIff` gives the harmful moments
  exactly.  There are two kinds.  A change is published while the client's subscription is still in the pipe, its flag
  is clear and it neither shows nor fetches the new document; or a removal is published that the client cannot hear,
  or hears before it takes an answer that flags the id again.  If every subscription takes effect inside the call that
  makes it, only one is left (`CacheCoherence.SettledHarmlessIff`): a removal, published between the serving of a
  client's call and its answer being taken, where the client is subscribed twice.  Nothing in the code prevents either:
  `StaleRead` has a run of the first kind, after which the client reads an old document for ever, and `GoneRead` one of
  the second, after which it reads a node that is gone.  Freshness, monotonic reads, snapshots and reading one's own
  writes do not depend on when flushes fall.
- HBase tables are written by this namespace only, rows are never removed, and characters compare as bytes do.

Where code and comments differ the model follows the code.  The comment at advert_zmq_mongodb.js:91 gives the queue's
values as "u" and "r"; the code stores "updated" and "removed".  The comment at common_helpers.hpp:25 gives a job id's
first part as a gridsam URL; `sync_run` prints the endpoint, and an endpoint with a bracketed address and a port gives
an id that does not parse.  The exclusive branch of the HBase constructors
(hbase_advert_advert.cpp:65-73) throws "already exists" where the URL does not exist.  Closing an advert
(sql_async_advert_advert.cpp:500-505) does not last where the constructor has subscribed twice, which it does when just
one of the create flags is set: the next update opens it again (`Closing.AdvertReopensIff`).

## Model

| member | source | states |
|---|---|---|
| Paths.GetPathArray | async_advert_adaptor/server/advert_zmq_mongodb.js:70-85 | the components are non-empty and free of slashes |
| Paths.PathArrayMeans | async_advert_adaptor/server/advert_zmq_mongodb.js:70-85 | no component comes of the empty string, one of a name, and those of two strings with a slash between are those of the one and then of the other |
| Paths.ArrayRoundTrip | async_advert_adaptor/server/advert_zmq_mongodb.js:178-183 | splitting the joined string of an array of names gives the array back |
| Paths.KeyIsCanonical | async_advert_adaptor/server/advert_zmq_mongodb.js:178-183 | the key a command looks up is its own key, with the same components |
| Paths.PathStringInjective | async_advert_adaptor/server/advert_zmq_mongodb.js:20-27 | the unique index on path strings is unique on component arrays |
| Paths.StepString | async_advert_adaptor/server/advert_zmq_mongodb.js:342-348 | the string the recursive remove builds for a child is the child's path, except below the root, where "//name" is never a stored path |
| AdvertStore.InitialValid | async_advert_adaptor/server/advert_zmq_mongodb.js:51-64 | the store with only the root satisfies the invariant |
| AdvertStore.PrefixStored | async_advert_adaptor/server/advert_zmq_mongodb.js:20-27 | in a well-formed tree every prefix of a stored path is stored |
| AdvertStore.AddChildWellFormed | async_advert_adaptor/server/advert_zmq_mongodb.js:218-229 | pushing an entry and saving the child keeps paths and child lists in agreement |
| AdvertStore.RemoveWellFormed | async_advert_adaptor/server/advert_zmq_mongodb.js:362-396 | taking out a subtree and its entry keeps them in agreement |
| AdvertStore.FindStored | async_advert_adaptor/server/advert_zmq_mongodb.js:136-150 | a stored document is the one found by its id |
| AdvertCommands.EffectAnnounced | async_advert_adaptor/server/advert_zmq_mongodb.js:128-496 | every command leaves a well-formed tree with unique ids; whatever changes or goes has a notice, "removed" is said exactly of ids that are gone, and only ids that were alive or are new get one |
| AdvertCommands.ApplyKeepsValid | async_advert_adaptor/server/advert_zmq_mongodb.js:128-496 | every command keeps the invariant: the root exists, all paths are canonical, every other node is listed once by its stored parent with its name and dir flag, every listed child exists, queued notices tell the truth |
| AdvertCommands.RunKeepsValid | async_advert_adaptor/server/advert_zmq_mongodb.js:128-496 | so does every run of commands from the stored root |
| AdvertCommands.ApplyAnnounces | async_advert_adaptor/server/advert_zmq_mongodb.js:91-114 | id by id: a node that changes or goes is queued, ids that appear are new, nothing leaves the queue, an id that is gone is never queued again |
| AdvertCommands.RemoveExactly | async_advert_adaptor/server/advert_zmq_mongodb.js:337-400 | remove deletes exactly the path and all stored paths below it, queues "removed" for each, takes exactly its entry out of the parent's list in place, and does nothing to the root or a missing path |
| AdvertCommands.WithoutOne | async_advert_adaptor/server/advert_zmq_mongodb.js:380-386 | where names are distinct, dropping the entries of a name drops one and keeps the order |
| AdvertCommands.CreateParentsExactly | async_advert_adaptor/server/advert_zmq_mongodb.js:249-331 | create with parents ends with every prefix stored and answers the id of the full path; a new document has its path, name and flag, the next prefix as its one child, and no attributes or data; no other document changes but for the lists that gain a child; and a parent is never missing |
| AdvertCommands.CreateParentsAnnounced | async_advert_adaptor/server/advert_zmq_mongodb.js:253-327 | the recursion keeps the tree well-formed and announces every change, from any step on |
| AdvertLaws.CreateAgrees | async_advert_adaptor/server/advert_zmq_mongodb.js:200-243 | where the parent is stored, create and createParents do the same |
| AdvertLaws.CreateTwice | async_advert_adaptor/server/advert_zmq_mongodb.js:205-209 | creating or opening what was just created changes nothing and answers the same id |
| AdvertLaws.RemoveUndoesCreate | async_advert_adaptor/server/advert_zmq_mongodb.js:374-386 | removing what was just created restores every document |
| AdvertLaws.AttributeCommands | async_advert_adaptor/server/advert_zmq_mongodb.js:406-453 | setting and removing an attribute change that attribute of that document and nothing else; removing one from a document that never had any breaks off |
| AdvertLaws.RemoveUndoesSet | async_advert_adaptor/server/advert_zmq_mongodb.js:411-427 | set then remove leaves the key absent and the rest as it was |
| AdvertLaws.StringCommands | async_advert_adaptor/server/advert_zmq_mongodb.js:459-497 | setting and removing the string change nothing else, and a removed string is the empty string |
| AdvertMeaning.InitialMeans | async_advert_adaptor/server/advert_zmq_mongodb.js:51-64 | the stored root, literally |
| AdvertMeaning.AskMeans | async_advert_adaptor/server/advert_zmq_mongodb.js:156-194 | exists and open change nothing and answer whether the path is stored, and its id |
| AdvertMeaning.CreateMeans | async_advert_adaptor/server/advert_zmq_mongodb.js:200-243 | create adds one document without attributes and data, last in the list of its parent, which is queued; or finds it there; or answers an error where the parent is missing |
| AdvertMeaning.CreateParentsMeans | async_advert_adaptor/server/advert_zmq_mongodb.js:249-331 | the new documents are numbered in order from the next id on, and what is queued is the parent of each, and nothing else |
| AdvertMeaning.RemoveMeans | async_advert_adaptor/server/advert_zmq_mongodb.js:337-400 | what is queued after a remove is "removed" for all that went and "updated" for the parent, the rest as it was; it is always answered ok |
| AdvertMeaning.AttributesMean | async_advert_adaptor/server/advert_zmq_mongodb.js:406-453 | document, queue and answer of the two attribute commands, on a stored path, on a missing one, and on a document without attributes |
| AdvertMeaning.StringsMean | async_advert_adaptor/server/advert_zmq_mongodb.js:459-497 | the same of the two string commands |
| AdvertServerModule.SpliceOut | async_advert_adaptor/server/advert_zmq_mongodb.js:380-386 | the loop that steps past the element moved into a spliced slot still leaves no entry of that name, because names are distinct |
| AdvertServerModule.AdvertServer.constructor | async_advert_adaptor/server/advert_zmq_mongodb.js:51-64 | start-up stores the root |
| AdvertServerModule.AdvertServer.Get | async_advert_adaptor/server/advert_zmq_mongodb.js:136-150 | finds the document of an id, or none |
| AdvertServerModule.AdvertServer.Exists | async_advert_adaptor/server/advert_zmq_mongodb.js:156-172 | answers whether the path is stored |
| AdvertServerModule.AdvertServer.Open | async_advert_adaptor/server/advert_zmq_mongodb.js:178-194 | answers the id at the path |
| AdvertServerModule.AdvertServer.AddNode | async_advert_adaptor/server/advert_zmq_mongodb.js:218-233 | pushes the entry, saves parent and child, queues the parent |
| AdvertServerModule.AdvertServer.Create | async_advert_adaptor/server/advert_zmq_mongodb.js:200-243 | new collection, queue and answer are those of the command's effect |
| AdvertServerModule.AdvertServer.CreateParentsStep | async_advert_adaptor/server/advert_zmq_mongodb.js:253-327 | the nested function from any step on, with measure path length minus i |
| AdvertServerModule.AdvertServer.CreateParents | async_advert_adaptor/server/advert_zmq_mongodb.js:249-331 | the whole command |
| AdvertServerModule.AdvertServer.RecursiveRemove | async_advert_adaptor/server/advert_zmq_mongodb.js:342-360 | terminates and takes out every document below the node, and only those; at the root none |
| AdvertServerModule.AdvertServer.RemoveDocument | async_advert_adaptor/server/advert_zmq_mongodb.js:351-354 | takes out one document and queues "removed" |
| AdvertServerModule.AdvertServer.Unlink | async_advert_adaptor/server/advert_zmq_mongodb.js:374-395 | takes the entry out of the parent's list, saves and queues the parent if there is one |
| AdvertServerModule.AdvertServer.Remove | async_advert_adaptor/server/advert_zmq_mongodb.js:337-400 | the whole command |
| AdvertServerModule.AdvertServer.SetAttribute | async_advert_adaptor/server/advert_zmq_mongodb.js:406-429 | the whole command; a missing path is never answered |
| AdvertServerModule.AdvertServer.RemoveAttribute | async_advert_adaptor/server/advert_zmq_mongodb.js:435-453 | the whole command; breaks off where the document has no attributes |
| AdvertServerModule.AdvertServer.SetString | async_advert_adaptor/server/advert_zmq_mongodb.js:459-475 | the whole command |
| AdvertServerModule.AdvertServer.RemoveString | async_advert_adaptor/server/advert_zmq_mongodb.js:481-497 | the whole command |
| AdvertServerModule.AdvertServer.Handle | async_advert_adaptor/server/advert_zmq_mongodb.js:128-496 | dispatch: each command has its effect and keeps the invariant |
| AdvertServerModule.AdvertServer.Flush | async_advert_adaptor/server/advert_zmq_mongodb.js:105-114 | publishes each queued id once, with its kind, and empties the queue |
| ServerConnectionModule.ServerConnection.ReadMessages | async_advert_adaptor/sql_async_advert/sql_async_server_connection.cpp:75-107 | the subscriber branch, message by message: flag dirty on "updated", unsubscribe and erase on "removed", drop what is not subscribed |
| ServerConnectionModule.ServerConnection.ReadHandover | async_advert_adaptor/sql_async_advert/sql_async_server_connection.cpp:109-133 | the pipe branch: subscribe, or unsubscribe and erase the flag |
| ServerConnectionModule.ServerConnection.ReadHandovers | async_advert_adaptor/sql_async_advert/sql_async_server_connection.cpp:75-133 | as often as something is on the pipe |
| ServerConnectionModule.ServerConnection.LookUpFlag | async_advert_adaptor/sql_async_advert/sql_async_server_connection.cpp:150-178 | the locked part of get_value: report closed, clean or dirty, and clear the flag before any fetch |
| ServerConnectionModule.ServerConnection.GetValue | async_advert_adaptor/sql_async_advert/sql_async_server_connection.cpp:148-226 | a get_value that the server answers before anything else happens |
| ServerConnectionModule.ServerConnection.GetState | async_advert_adaptor/sql_async_advert/sql_async_server_connection.cpp:228-249 | whether the flag is there |
| ServerConnectionModule.ServerConnection.OnReply | async_advert_adaptor/sql_async_advert/sql_async_server_connection.cpp:291-306 | what open and the creates do with an answer, and without the subscription what the attribute calls do |
| ServerConnectionModule.ServerConnection.CloseDirectory | async_advert_adaptor/sql_async_advert/sql_async_server_connection.cpp:396-402 | hands over an unsubscription of the URL's id, and nothing else |
| ServerConnectionModule.ServerConnection.OnRemoveReply | async_advert_adaptor/sql_async_advert/sql_async_server_connection.cpp:385-393 | hands it over once the server has answered ok |
| ConnectionState.AliasReadsNull | async_advert_adaptor/sql_async_advert/sql_async_server_connection.cpp:148-226 | two spellings of one path share the flag but not the cache: a read through one makes the first read through the other succeed with null, which is why paths are normalized |
| ConnectionState.GetValueMeans | async_advert_adaptor/sql_async_advert/sql_async_server_connection.cpp:148-226 | every member of the connection after an uninterrupted get_value, when it succeeds, and what it returns |
| ConnectionState.EventsMean | async_advert_adaptor/sql_async_advert/sql_async_server_connection.cpp:83-133 | what an answer, a hand-over and a message change, member by member |
| Closing.CloseCloses | async_advert_adaptor/sql_async_advert/sql_async_server_connection.cpp:109-133 | after a close and with the pipe empty the id is not flagged, its subscriptions are one less than without the close, all other ids are as they were, and get_value is refused |
| Closing.ReopenedIff | async_advert_adaptor/sql_async_advert/sql_async_server_connection.cpp:83-90 | an update then opens the URL again exactly if a subscription is left |
| Closing.AdvertReopensIff | async_advert_adaptor/sql_async_advert/sql_async_advert_advert.cpp:104-147 | so an advert constructed with just one create flag is opened again by the next update of its node after a close, and any other is not |
| Closing.FlaggedIff | async_advert_adaptor/sql_async_advert/sql_async_server_connection.cpp:55-226 | over the steps of the system: an id that is not flagged is flagged by an answer with it, or by an update of it while subscribed, and by nothing else |
| Closing.CloseLasts | async_advert_adaptor/sql_async_advert/sql_async_server_connection.cpp:396-402 | in every run, from a close on and until such a step, the id is not flagged or its unsubscription is still in the pipe |
| Closing.ClosedIsRefused | async_advert_adaptor/sql_async_advert/sql_async_server_connection.cpp:148-178 | so once the hand-over is taken every get_value for the id is refused |
| Closing.ShutLasts | async_advert_adaptor/sql_async_advert/sql_async_server_connection.cpp:55-226 | with no subscription left, only an answer can open the id again |
| CacheProtocol.NowIsFind | async_advert_adaptor/server/advert_zmq_mongodb.js:136-150 | the history of ids finds the document that the get command finds |
| CacheProtocol.MoveMoved | async_advert_adaptor/server/advert_zmq_mongodb.js:128-496 | what clients may know of a served command, id by id: changes are queued, ids keep their path, what is gone stays gone |
| CacheInvariant.AnswerNames | async_advert_adaptor/sql_async_advert/sql_async_server_connection.cpp:291-306 | an answered id was given out for the requested path and is alive when answered; after a set attribute it shows the value |
| CacheInvariant.PublishedMember | async_advert_adaptor/server/advert_zmq_mongodb.js:105-114 | a flush sends a client exactly the queued notices of the ids it subscribes to |
| CacheInvariant.StepInv | async_advert_adaptor/sql_async_advert/sql_async_server_connection.cpp:55-226 | every step of any client, its reader thread or the server keeps the untimed invariant: ids name their URLs, a clear flag means a cache or a fetch as new as every delivered notice, an own write stays visible |
| CacheInvariant.RunInv | async_advert_adaptor/sql_async_advert/sql_async_server_connection.cpp:55-226 | it holds in every reachable state of any number of clients |
| CacheCoherence.StepCoherent | async_advert_adaptor/sql_async_advert/sql_async_server_connection.cpp:55-226 | every step keeps a client coherent at an id, unless it is a flush that publishes a notice for that id and does harm there |
| CacheCoherence.CacheCoherent | async_advert_adaptor/sql_async_advert/sql_async_server_connection.cpp:55-226 | in every state of a run without a flush harmful to that client at that id, whatever other flushes do: the id, open and subscribed, is dirty, or noticed in queue or flight, or being fetched with nothing changed since, or cached as the server has it |
| CacheCoherence.FlushCoveredIff | async_advert_adaptor/server/advert_zmq_mongodb.js:105-114 | for any flush: a covered URL is covered no more exactly if its id is queued, the subscription is still in the pipe, the flag is clear, and the client neither shows nor fetches what the server has |
| CacheCoherence.FlushCoherentIff | async_advert_adaptor/server/advert_zmq_mongodb.js:105-114 | a flush keeps a client coherent at an id exactly if the id is not queued or the flush is harmless there |
| CacheCoherence.SettledHarmlessIff | async_advert_adaptor/sql_async_advert/sql_async_server_connection.cpp:109-133 | where subscriptions take effect inside the calls that make them, a flush does harm only by publishing a removal while the client has an untaken answer with that id and is subscribed to it more than once |
| StaleRead.UnpromptFlushGoesStale | async_advert_adaptor/sql_async_advert/sql_async_server_connection.cpp:360-369 | a concrete run: the queue is published while a subscription is still in the pipe, and with nothing left on its way the client shows an old document |
| StaleRead.StaleForEver | async_advert_adaptor/sql_async_advert/sql_async_server_connection.cpp:148-226 | however often it then reads, it reads the old document |
| GoneRead.RemovalForgotten | async_advert_adaptor/sql_async_advert/sql_async_server_connection.cpp:83-107 | the other harmful flush: a client subscribed twice hears of a removal, whatever else the queue holds, before it takes the answer of an attribute call; the erased flag comes back with the answer |
| GoneRead.GoneIsRead | async_advert_adaptor/sql_async_advert/sql_async_server_connection.cpp:148-226 | its first read then fails, and every later read succeeds with what it had cached of a node that is gone |
| GoneRead.UntakenAnswerGoesStale | async_advert_adaptor/sql_async_advert/sql_async_server_connection.cpp:404-432 | a run of that: create and open with both subscriptions, a read, a set attribute served, a removal by another client, the flush, the answer taken; the next read fails, and the node that is gone stays open, subscribed and cached |
| GoneRead.GoneForEver | async_advert_adaptor/sql_async_advert/sql_async_server_connection.cpp:148-226 | however often the client then reads, it reads that document |
| CacheTheorems.QuiescentConvergence | async_advert_adaptor/sql_async_advert/sql_async_server_connection.cpp:148-226 | in every state of a run in which no flush has harmed the client at the id it has for a URL: if that is open and subscribed, no news of it is queued or in flight and nothing is being fetched, the node is alive and get_value returns exactly the server's document |
| CacheTheorems.Freshness | async_advert_adaptor/sql_async_advert/sql_async_server_connection.cpp:83-90 | once a notice is delivered, every later successful read of the living node is at least as new as the change, even if the notice came between clear and store |
| CacheTheorems.MonotonicReads | async_advert_adaptor/sql_async_advert/sql_async_server_connection.cpp:171-223 | reads of one URL by one client never go back to an older snapshot |
| CacheTheorems.ReadsAreSnapshots | async_advert_adaptor/sql_async_advert/sql_async_server_connection.cpp:198-223 | every document a read returns is one the server had at the moment the read is stamped with |
| CacheTheorems.ReadYourWrites | async_advert_adaptor/sql_async_advert/sql_async_server_connection.cpp:404-432 | after an answered set_attribute, the client's reads of the URL show the value as long as the server still has it, however late the notices are |
| Coalescing.ReceiveAllAt | async_advert_adaptor/sql_async_advert/sql_async_server_connection.cpp:75-107 | for one id, what a client makes of a series of messages depends on the last of them |
| Coalescing.CoalescingLosesNothing | async_advert_adaptor/server/advert_zmq_mongodb.js:91-114 | delivering the flushed batch, in any order of ids, leaves a connection as delivering every event since the last flush in order |
| Coalescing.QueueIsCoalesced | async_advert_adaptor/server/advert_zmq_mongodb.js:91-114 | over any commands the queue is the coalesced events, and among them "removed" is final |
| Coalescing.FlushTellsAll | async_advert_adaptor/server/advert_zmq_mongodb.js:91-114 | for commands run from an empty queue, delivering the flushed queue leaves a connection exactly as delivering everything the commands announced |
| Coalescing.GoneIsQuiet | async_advert_adaptor/server/advert_zmq_mongodb.js:91-114 | an id that is gone is never announced again |
| AdvertAdaptor.Advert.Construct | async_advert_adaptor/sql_async_advert/sql_async_advert_advert.cpp:104-147 | the open sequence: exclusive check, create calls, open call, final state check |
| AdvertAdaptor.Advert.Close | async_advert_adaptor/sql_async_advert/sql_async_advert_advert.cpp:500-505 | hands over the unsubscription and is closed |
| AdvertAdaptor.ConstructedMeans | async_advert_adaptor/sql_async_advert/sql_async_advert_advert.cpp:104-147 | what the server holds afterwards, by what it held and the mode: with parents construction succeeds and makes every missing prefix; with create alone it makes at most the one node, below a parent that is there, and succeeds exactly if the path or its parent was there or an old flag is; otherwise it makes nothing |
| AdvertAdaptor.FreshIsBlank | async_advert_adaptor/sql_async_advert/sql_async_advert_advert.cpp:133-147 | a node that construction has made shows its path and name, and no children, attributes or data in the first read |
| AdvertAdaptor.ConstructedIff | async_advert_adaptor/sql_async_advert/sql_async_advert_advert.cpp:104-147 | an exclusive create of a stored path fails and changes nothing; otherwise construction succeeds exactly if the node is there afterwards or an earlier open left its flag; the node is then open, dirty and subscribed, twice if one create flag was set |
| AdvertAdaptor.ConstructedReads | async_advert_adaptor/sql_async_advert/sql_async_advert_advert.cpp:133-147 | an advert whose node is there reads the server's document, whatever was cached |
| AdvertAdaptor.Advert.SetAttribute | async_advert_adaptor/sql_async_advert/sql_async_advert_advert.cpp:339-349 | open check, permission check, call |
| AdvertAdaptor.Advert.GetAttribute | async_advert_adaptor/sql_async_advert/sql_async_advert_advert.cpp:288-308 | read, open check, permission check, missing key, vector attribute, value |
| AdvertAdaptor.GetMeans | async_advert_adaptor/sql_async_advert/sql_async_advert_advert.cpp:288-308 | when get_attribute ends closed, not permitted, without such an attribute, with a vector where a scalar is asked for, or with which value, by the flag, the mode and the document |
| AdvertAdaptor.SetMeans | async_advert_adaptor/sql_async_advert/sql_async_advert_advert.cpp:339-349 | when set_attribute ends closed, not permitted, not at all, or done; unless done it changes nothing on the server, so that without write permission nothing does |
| AdvertAdaptor.SetThenGet | async_advert_adaptor/sql_async_advert/sql_async_advert_advert.cpp:288-349 | an advert that has set an attribute gets it back |
| ProtocolCode.CalledTakes | async_advert_adaptor/sql_async_advert/sql_async_server_connection.cpp:291-306 | in the protocol, a served and answered call leaves the connection as the code does: dirty, and for open and the creates with a subscription handed over |
| ProtocolCode.ConstructIsCalls | async_advert_adaptor/sql_async_advert/sql_async_advert_advert.cpp:104-147 | the advert constructor is the protocol's create and open calls, on connection and server |
| ProtocolCode.SetIsCall | async_advert_adaptor/sql_async_advert/sql_async_advert_advert.cpp:339-349 | an attribute that is set is its set call |
| ProtocolCode.RemoveIsCall | async_advert_adaptor/sql_async_advert/sql_async_server_connection.cpp:373-394 | an answered remove hands over an unsubscription, as close does |
| ProtocolCode.GetIsSteps | async_advert_adaptor/sql_async_advert/sql_async_server_connection.cpp:148-226 | a get_value that nothing interrupts is the look, serve and store steps |
| PathNormalize.NormalizeBoostPath | async_advert_adaptor/sql_async_advert/sql_async_advert_advert_directory.cpp:22-50 | the loop over path elements, on strings of any form, follows the walk over names; a path that starts with exactly two slashes has a root name |
| PathNormalize.NormalizedIs | async_advert_adaptor/sql_async_advert/sql_async_advert_advert_directory.cpp:22-50 | its result in closed form where there is no root name: the names left, and the root unless the path climbs above it |
| PathNormalize.NormalizedIdempotent | async_advert_adaptor/sql_async_advert/sql_async_advert_advert_directory.cpp:22-50 | for every path no "." or ".." is left, and normalizing again changes nothing |
| PathNormalize.NormalizedCanonicalIff | async_advert_adaptor/sql_async_advert/sql_async_advert_advert_directory.cpp:22-50 | for an absolute path the result is a fixed point of the server's split and join exactly if the path never climbs above the root or ends there; with a root name, exactly if two ".." in a row climb out with nothing entered before them, and no name is left in the end |
| PathNormalize.ClimbIsNoKey | async_advert_adaptor/sql_async_advert/sql_async_advert_advert_directory.cpp:22-50 | "/../a" becomes "a", which is no key of the server |
| PathNormalize.EntryPath | async_advert_adaptor/sql_async_advert/sql_async_advert_advert_directory.cpp:573-584 | the path sync_exists asks the server about |
| PathNormalize.EntryPathIff | async_advert_adaptor/sql_async_advert/sql_async_advert_advert_directory.cpp:573-584 | for a relative entry this is the normalized joined path exactly if the entry ends below its start without climbing above it, or ends at or above its start after climbing through the whole directory path |
| PathNormalize.ClimbIsForgotten | async_advert_adaptor/sql_async_advert/sql_async_advert_advert_directory.cpp:573-584 | for the entry "../c" a directory at "/a/b" asks about "/a/b/c", where the normalized joined path is "/a/c" |
| PathNormalize.AbsoluteEntry | async_advert_adaptor/sql_async_advert/sql_async_advert_advert_directory.cpp:573-584 | an absolute entry is normalized on its own |
| PathNormalize.RootNameStays | async_advert_adaptor/sql_async_advert/sql_async_advert_advert_directory.cpp:22-50 | a path of names behind a root name "//host", or "//" alone, stays as it is; three slashes at the start are one |
| HbaseTable.PutKeeps | hbase/trunk/hbase_advert/common_helpers.cpp:207-231 | a mutation keeps the rows in key order and touches one row |
| HbaseTable.KeySplit | hbase/trunk/hbase_advert/common_helpers.cpp:207-231 | a row key name-id has one reading, whatever the name contains |
| HbaseTable.IntRoundTrip | hbase/trunk/hbase_advert/common_helpers.cpp:143-147 | ids survive the trip through their strings up to the largest int |
| HbaseMeaning.DecIsDecimal | hbase/trunk/hbase_advert/common_helpers.cpp:143-147 | an id string is the decimal of its id without a leading zero |
| HbaseMeaning.ParseIntMeans | hbase/trunk/hbase_advert/common_helpers.cpp:143-147 | a string converts exactly if it is digits after at most one sign and fits an int, and then to what the digits are worth |
| HbaseMeaning.NegativeRoundTrip | hbase/trunk/hbase_advert/common_helpers.cpp:143-147 | ids below zero survive their strings too |
| HbaseMeaning.NodeIdMeans | hbase/trunk/hbase_advert/common_helpers.cpp:16-47 | on any table the scan finds the id of the last row, up to the first match or the end, whose key starts with the entry, whoever its parent is; and nothing if there is none |
| HbaseMeaning.MutatedMeans | hbase/trunk/hbase_advert/common_helpers.cpp:207-231 | a mutation sets one column of one row, made if need be, and keeps all other rows |
| HbaseMeaning.AttributeRows | hbase/trunk/hbase_advert/hbase_advert_advert.cpp:223-272 | the row of the metadata after a set and after a remove, column by column, and all other rows as they were |
| HbaseMeaning.NodeRows | hbase/trunk/hbase_advert/common_helpers.cpp:207-231 | every node has a row under its name and id with its id, name, parent and flag as strings |
| HbaseMeaning.BadIdThrows | hbase/trunk/hbase_advert/common_helpers.cpp:130-246 | an id that is no int breaks off the existence test, the creation, both kinds of opening and the attribute calls |
| HbaseMeaning.RootDirectory | hbase/trunk/hbase_advert/hbase_advert_advertdirectory.cpp:66-68 | a directory at the root is opened without a look at the table |
| HbaseMeaning.NamelessRow | hbase/trunk/hbase_advert/common_helpers.cpp:193-246 | creating a URL without a path writes one row, with an empty id, under its host |
| HbaseNamespace.GetNodeId | hbase/trunk/hbase_advert/common_helpers.cpp:16-47 | the scan on any table: the id of the first row whose key starts with the entry and whose parent matches, else the id of the last row whose key starts with it |
| HbaseNamespace.HasEntry | hbase/trunk/hbase_advert/common_helpers.cpp:103-127 | the re-check for the row of that name and id |
| HbaseNamespace.HasUrl | hbase/trunk/hbase_advert/common_helpers.cpp:130-155 | the walk along the path, the exception of the string conversion included |
| HbaseNamespace.GetNewNodeId | hbase/trunk/hbase_advert/common_helpers.cpp:157-173 | one more than the number of rows |
| HbaseNamespace.GetParentIdOfEntry | hbase/trunk/hbase_advert/common_helpers.cpp:177-191 | the same walk without the existence checks |
| HbaseNamespace.MakeUrl | hbase/trunk/hbase_advert/common_helpers.cpp:193-246 | the row-by-row mutations of create_url on any table |
| HbaseNamespace.Construct | hbase/trunk/hbase_advert/hbase_advert_advert.cpp:64-100 | the constructors of adverts and of directories: the exclusive branch, the guarded create, and for adverts the final existence check |
| HbaseNamespace.FindTarget | hbase/trunk/hbase_advert/hbase_advert_advert.cpp:114-122 | the id the attribute calls look up |
| HbaseNamespace.SetAttribute | hbase/trunk/hbase_advert/hbase_advert_advert.cpp:223-247 | the two mutations of the metadata row |
| HbaseNamespace.RemoveAttribute | hbase/trunk/hbase_advert/hbase_advert_advert.cpp:259-272 | the deletion of one cell |
| HbaseNamespace.GetAttribute | hbase/trunk/hbase_advert/hbase_advert_advert.cpp:179-209 | the scan for the cell; a thrown conversion and a missing cell are told apart |
| HbaseNamespace.AttributeExists | hbase/trunk/hbase_advert/hbase_advert_advert.cpp:114-147 | the scan for the cell |
| HbaseForest.ResolveIff | hbase/trunk/hbase_advert/common_helpers.cpp:177-191 | walking down by names and climbing up by parents agree: names lead to a node exactly if they are its path |
| HbaseForest.PathInjective | hbase/trunk/hbase_advert/common_helpers.cpp:177-191 | no two nodes have the same path |
| HbaseForest.PrefixExists | hbase/trunk/hbase_advert/common_helpers.cpp:130-155 | what exists is closed under prefixes: once a component is missing, all later ones are |
| HbaseForest.CreatedNodes | hbase/trunk/hbase_advert/common_helpers.cpp:204-243 | creating adds exactly the missing prefixes, numbered on from the nodes there are, intermediates as directories and the last with the flag asked for; ids are 1 to n, parents smaller, name and parent distinct |
| HbaseForest.CreatedPaths | hbase/trunk/hbase_advert/common_helpers.cpp:204-243 | afterwards a path exists exactly if it did before or is a prefix of the one created, and earlier paths keep their ids |
| HbaseRefinement.TableRows | hbase/trunk/hbase_advert/common_helpers.cpp:204-231 | the table of a forest has one row per node, in key order, and no other |
| HbaseRefinement.LookupExact | hbase/trunk/hbase_advert/common_helpers.cpp:16-127 | on any namespace: entry_exists holds exactly if the entry is stored and no sibling's key that starts with its name sorts before its own; then get_node_id returns its id |
| HbaseRefinement.ShadowsIff | hbase/trunk/hbase_advert/common_helpers.cpp:16-127 | among names without a dash such siblings are those whose name goes on with a character below the dash |
| HbaseRefinement.PlainLookup | hbase/trunk/hbase_advert/common_helpers.cpp:16-127 | with names of characters above the dash the lookup is exact |
| HbaseRefinement.AddNodeRefines | hbase/trunk/hbase_advert/common_helpers.cpp:207-231 | the four mutations add one node's row |
| HbaseTheorems.CreateUrlExists | hbase/trunk/hbase_advert/common_helpers.cpp:130-246 | after it a URL is said to exist exactly if it did before or lies on the created path, and no component of it is shadowed in the namespace as it then is |
| HbaseTheorems.ShadowedEntryIsDuplicated | hbase/trunk/hbase_advert/common_helpers.cpp:16-246 | starting from an empty table: after creating "/a" and "/a+" the table says that "/a" does not exist, and creating it again, as the constructor then does, leaves a table that is no namespace |
| HbaseShadows.UrlExistsExact | hbase/trunk/hbase_advert/common_helpers.cpp:130-155 | for names of any characters: url_exists holds exactly if the URL exists and no component on its path is shadowed |
| HbaseShadows.TargetIsNode | hbase/trunk/hbase_advert/common_helpers.cpp:177-191 | the id found for a URL that exists and has no shadowed component is its node's |
| HbaseShadows.PlainVisible | hbase/trunk/hbase_advert/common_helpers.cpp:16-127 | with names of characters above the dash nothing is shadowed |
| HbaseShadows.AppendedRows | hbase/trunk/hbase_advert/common_helpers.cpp:204-240 | the loop adds a node for every component from the first it does not see on |
| HbaseShadows.AppendedIs | hbase/trunk/hbase_advert/common_helpers.cpp:204-240 | that is the missing prefixes if all existing components are visible, and otherwise a second node of one name under one parent |
| HbaseShadows.TableInjective | hbase/trunk/hbase_advert/common_helpers.cpp:207-231 | a table is that of one forest only |
| HbaseShadows.CreateUrlExact | hbase/trunk/hbase_advert/common_helpers.cpp:193-246 | whatever the names, create_url keeps the table a namespace exactly if the path has a name, does not exist and has no shadowed component; then exactly the path is created; otherwise a row with an empty id or a duplicate node appears |
| HbaseAttributes.KeyOfInjective | hbase/trunk/hbase_advert/hbase_advert_advert.cpp:223-241 | different existing paths have different metadata rows |
| HbaseAttributes.SetCellOf | hbase/trunk/hbase_advert/hbase_advert_advert.cpp:223-247 | a set at any URL whatever changes one attribute of the path that the id looked up and the last name belong to, if there is one, and no attribute of any other path |
| HbaseAttributes.SetIsReadBack | hbase/trunk/hbase_advert/hbase_advert_advert.cpp:179-247 | a value set at one URL is read back there, and no attribute of any URL changes otherwise, for all URLs whose calls look up their own node |
| HbaseIsolation.SetRightIff | hbase/trunk/hbase_advert/hbase_advert_advert.cpp:223-247 | a set at an existing URL is in its own row afterwards, whatever was there, exactly if the id looked up is its own |
| HbaseIsolation.ReadAfter | hbase/trunk/hbase_advert/hbase_advert_advert.cpp:179-272 | what is read at a URL after a set or a remove at any other |
| HbaseIsolation.IsolatedIff | hbase/trunk/hbase_advert/hbase_advert_advert.cpp:223-272 | a set or a remove at any URL leaves everything read at URLs with other paths alone exactly if the id looked up is not that of another node of the same name, whose own calls find it |
| HbaseIsolation.SetStrays | hbase/trunk/hbase_advert/hbase_advert_advert.cpp:223-247 | starting from empty tables: after "/a/x" and "/a+/x" are created, both with success, a set at "/a/x" is read at "/a+/x" and is not in its own row |
| HbaseAttributes.RemovedCells | hbase/trunk/hbase_advert/hbase_advert_advert.cpp:259-272 | removing an attribute clears that cell only |
| HbaseAttributes.ConstructExact | hbase/trunk/hbase_advert/hbase_advert_advert.cpp:64-100 | whatever the names, construction keeps the table a namespace exactly if it creates nothing, or the path has a name and no shadowed component; then it creates exactly the path unless that is there |
| HbaseAttributes.OpenExact | hbase/trunk/hbase_advert/hbase_advert_advert.cpp:93-98 | opening without create makes nothing; an advert's succeeds exactly on what exists and is seen, a directory's always |
| HbaseAttributes.ExclusiveIsInverted | hbase/trunk/hbase_advert/hbase_advert_advert.cpp:64-73 | an exclusive create never makes anything, and succeeds exactly on what exists and is seen |
| HbaseAttributes.CreateSucceedsIff | hbase/trunk/hbase_advert/hbase_advert_advert.cpp:74-100 | an advert's create succeeds exactly if the new path is not shadowed once it is made; if it is, the constructor throws and the node stays |
| HbaseAttributes.StepRepresents | hbase/trunk/hbase_advert/hbase_advert_advert.cpp:64-272 | every constructor call that creates nothing or finds a clear path, and every attribute call that looks up its own node, does to the two tables what it does to a tree of paths with flags and attributes |
| HbaseAttributes.RunRepresents | hbase/trunk/hbase_advert/hbase_advert_advert.cpp:64-272 | over every run of such calls from empty tables, with names of any characters, the two tables are that tree |
| HbaseAttributes.RunReads | hbase/trunk/hbase_advert/hbase_advert_advert.cpp:179-209 | so an existence test after a run says whether the tree has the path and no component is shadowed; in that case attribute calls find its node, and wherever they do a read answers what the tree says |
| HbaseAttributes.RunOpens | hbase/trunk/hbase_advert/hbase_advert_advert.cpp:93-98 | and after a run an advert is opened exactly if the tree has its path and no component is shadowed |
| HbaseAttributes.PlainRun | hbase/trunk/hbase_advert/hbase_advert_advert.cpp:64-272 | with names of characters above the dash every path is clear at every step, so that such a run is always one of these |
| HbaseAttributes.PlainReads | hbase/trunk/hbase_advert/hbase_advert_advert.cpp:179-209 | after it existence tests and attribute reads answer what the tree says, without exception |
| HbaseAttributes.ExistsIffCreated | hbase/trunk/hbase_advert/common_helpers.cpp:193-246 | what exists after a run is every non-empty prefix of a path some constructor was asked to create |
| ThriftProtocol.SkipEncoded | hbase/trunk/hbase_advert/Hbase_types.cpp:31-51 | skipping by the declared type consumes exactly one written value, whatever it nests |
| ThriftStructs.ReadIsMeaning | hbase/trunk/hbase_advert/Hbase_types.cpp:405-463 | reading any conforming struct yields what its fields mean, in any order and among unknown or mistyped fields, and consumes exactly the struct |
| ThriftTheorems.MeaningAt | hbase/trunk/hbase_advert/Hbase_types.cpp:23-54 | a member is its last wanted value on the wire, or what it was before; `__isset` marks exactly those |
| ThriftTheorems.Tolerance | hbase/trunk/hbase_advert/Hbase_types.cpp:13-59 | field order does not matter, nor do fields with unknown ids or other types in between |
| ThriftTheorems.RoundTrip | hbase/trunk/hbase_advert/Hbase_types.cpp:405-485 | whatever struct is written, reading it back into any struct yields its members, all marked, and leaves exactly what follows |
| ThriftStream.ReadStructMore | hbase/trunk/hbase_advert/Hbase_types.cpp:405-463 | what has been read of a stream stays read when more tokens follow |
| ThriftStream.Truncated | hbase/trunk/hbase_advert/Hbase_types.cpp:405-485 | a stream that ends within a written struct is not read |
| ThriftStream.EndsMatter | hbase/trunk/hbase_advert/Hbase_types.cpp:405-463 | a struct or a field with another token where its end should be is not read |
| ThriftStream.HeadersMatter | hbase/trunk/hbase_advert/Hbase_types.cpp:31-51 | nor is a list or map skipped that does not end where its header says |
| HbaseTypes.Read | hbase/trunk/hbase_advert/Hbase_types.cpp:405-463 | the read loop over a token stream equals the reading function of its switch table |
| HbaseTypes.ReadMember | hbase/trunk/hbase_advert/Hbase_types.cpp:425-455 | one case of the switch |
| HbaseTypes.ReadList | hbase/trunk/hbase_advert/Hbase_types.cpp:434-449 | the list loop: cleared, then each element read |
| HbaseTypes.ReadMap | hbase/trunk/hbase_advert/Hbase_types.cpp:519-537 | the map loop: cleared, a repeated key read into the same struct |
| HbaseTypes.Write | hbase/trunk/hbase_advert/Hbase_types.cpp:465-485 | the tokens appended are those of one tree of the struct |
| HbaseTypes.WriteList | hbase/trunk/hbase_advert/Hbase_types.cpp:471-479 | the elements in order |
| HbaseTypes.WriteMap | hbase/trunk/hbase_advert/Hbase_types.cpp:557-567 | every entry once, in ascending order of the keys |
| HbaseStructs.CellRoundTrip | hbase/trunk/hbase_advert/Hbase_types.cpp:13-73 | read undoes write for TCell |
| HbaseStructs.ColumnRoundTrip | hbase/trunk/hbase_advert/Hbase_types.cpp:78-226 | for ColumnDescriptor |
| HbaseStructs.RegionRoundTrip | hbase/trunk/hbase_advert/Hbase_types.cpp:231-324 | for TRegionInfo |
| HbaseStructs.MutationRoundTrip | hbase/trunk/hbase_advert/Hbase_types.cpp:329-400 | for Mutation |
| HbaseStructs.BatchRoundTrip | hbase/trunk/hbase_advert/Hbase_types.cpp:405-485 | for BatchMutation, through the list loop |
| HbaseStructs.RowRoundTrip | hbase/trunk/hbase_advert/Hbase_types.cpp:490-574 | for TRowResult, through the map loop and in any order of its keys |
| HbaseStructs.BatchesDiffer | hbase/trunk/hbase_advert/Hbase_types.h:228-262 | different batches are different on the wire, and the tokens of one never start those of the other |
| HbaseStructs.RowsDiffer | hbase/trunk/hbase_advert/Hbase_types.h:263-297 | so are different rows |
| HbaseWire.CellWritten | hbase/trunk/hbase_advert/Hbase_types.cpp:61-73 | the tokens TCell writes, with its own members under their field ids and types |
| HbaseWire.ColumnWritten | hbase/trunk/hbase_advert/Hbase_types.cpp:190-226 | those of ColumnDescriptor |
| HbaseWire.RegionWritten | hbase/trunk/hbase_advert/Hbase_types.cpp:303-324 | those of TRegionInfo |
| HbaseWire.MutationWritten | hbase/trunk/hbase_advert/Hbase_types.cpp:385-400 | those of Mutation: isDelete, column, value |
| HbaseWire.BatchWritten | hbase/trunk/hbase_advert/Hbase_types.cpp:465-485 | those of BatchMutation, the mutations in order |
| HbaseWire.RowWritten | hbase/trunk/hbase_advert/Hbase_types.cpp:553-574 | those of TRowResult, the cells in some order of their columns |
| HbaseWire.CellRead | hbase/trunk/hbase_advert/Hbase_types.cpp:13-54 | such tokens are read into the members they were written from, all marked, and nothing more is consumed |
| HbaseWire.ColumnRead | hbase/trunk/hbase_advert/Hbase_types.cpp:78-182 | for ColumnDescriptor |
| HbaseWire.RegionRead | hbase/trunk/hbase_advert/Hbase_types.cpp:231-295 | for TRegionInfo |
| HbaseWire.MutationRead | hbase/trunk/hbase_advert/Hbase_types.cpp:329-381 | for Mutation |
| HbaseWire.BatchRead | hbase/trunk/hbase_advert/Hbase_types.cpp:405-463 | for BatchMutation |
| HbaseWire.RowRead | hbase/trunk/hbase_advert/Hbase_types.cpp:490-549 | for TRowResult, in any order of the columns |
| HbaseWire.Defaults | hbase/trunk/hbase_advert/Hbase_types.h:24-297 | a struct read from no fields has the initial members of its constructor, none marked |
| HbaseWire.ColumnDefaults | hbase/trunk/hbase_advert/Hbase_types.h:63-86 | the ten initial members of ColumnDescriptor |
| HbaseWire.HeadersIgnored | hbase/trunk/hbase_advert/Hbase_types.cpp:434-449 | lists and maps are read as ones of structs whatever element types their headers name |
| HbaseWire.RepeatedColumn | hbase/trunk/hbase_advert/Hbase_types.cpp:519-537 | a cell that comes twice under one column is read into one struct |
| JobId.AcceptedIff | gridsam/trunk/gridsam_job/common_helpers.hpp:28-42 | a string is accepted with remote id j exactly if it reads [e]-[h:j] with no ']' in e or j and no ':' in h |
| JobId.FormatInjective | gridsam/trunk/gridsam_job/omii_gridsam_job.cpp:610-614 | it reads so in one way, so printed ids are injective |
| JobId.RoundTripIff | gridsam/trunk/gridsam_job/omii_gridsam_job.cpp:610-614 | which printed ids give their remote id back, for any parts: h has no ':', j no ']', and the endpoint's first ']', if any, starts a "]-[" with no ':' after it; a NUL in j breaks it too, and one in e or h makes the remote id play no part |
| JobId.AddressRejected | gridsam/trunk/gridsam_job/omii_gridsam_job.cpp:610-614 | an endpoint with a bracketed address and a port makes an id that is refused |

## Left out

- HbaseTypes.Read: one method stands for the six generated loops, which differ in their switch tables only; on an
  exception of the protocol it does not say what the half-read struct holds.
- HbaseNamespace.GetNewNodeId: counts without the overflow of an int; the theorems about runs keep below it.
- HbaseAttributes.RunRepresents: covers runs of calls that do their work.  Of the others, a creation without a name or on
  a path with a shadowed component leaves rows that are no namespace (`HbaseAttributes.ConstructExact`), and what an
  attribute call does that looks up another id is said call by call (`HbaseAttributes.SetCellOf`, `HbaseIsolation`).
- HbaseNamespace.Construct: starts after the URL and scheme checks and the connection to HBase.
- AdvertServerModule.AdvertServer.Remove: answers when all is done, where the code answers before its callbacks end; no
  state in between is described.
- ServerConnectionModule.ServerConnection.ReadMessages: reads one batch of the endless polling loop.
- AdvertAdaptor.Advert.Construct: starts after the scheme and path checks and runs without interruption.
- Integer widths in the Thrift structs and the `xfer` byte counts, which the list and map loops do not add up.
- `sync_remove`, `sync_list` and the store-string calls of the HBase adverts; removal breaks ids by count.
- The name "/" itself in HBase: the root has no row, and `url_exists` denies it.
- Whether a parent is a directory: the server's create does not ask.
- The other directory operations of the advert adaptors, which join paths and call the connection as the ones here do.
- ZeroMQ, MongoDB, HBase and Thrift transports, libcurl, gSOAP, DRMAA and EC2: foreign input and output.
- Job state mapping, waiting loops, environment and staging lists, curl handles and ini overlays: they would only add
  easy members.
