# Verified models of redis-py's protocol cores

redis-py is a client, but much of it is protocol: a resumable parser over an unreliable byte stream, a stale
slot table that is repaired while commands are in flight, a pipeline that is scattered over nodes and gathered
again, a cache that a server invalidates, subscriptions whose acknowledgements are late, a lock shared by
processes, and pools that hand out connections. Each of these is modelled against a small environment (a byte
stream, a cluster with fixed owners, a server key with a clock, a connection that can be lost), and what the
client promises is proved for every input, every run and every interleaving the model has.

A class of the program is a class here, with its fields; its methods keep their branches and their order.
Beside each class stands a specification in functions, and the properties are lemmas about those functions, or
invariants (`Valid`, `Idle`, `Resumable`, `Agreement`, `Allocator`, ...) that every method keeps.

`dafny verify dfyconfig.toml` verifies the project. Every lemma switches Dafny's automatic induction off, so that no
proof rests on it.

| files | contents |
|---|---|
| Helpers | an option type, and sequences without duplicates |
| Bytes, Resp | bytes and decimal numerals; the RESP2 grammar as a recursive parse, and its printer |
| SocketBuffer, Resp2Parser | the blocking reader: a buffer that is refilled, rewound and purged, and the recursive descent over it |
| AsyncParser | the asynchronous reader, which replays what it has when it was cancelled |
| Resp3, Resp3Wire, Resp3Parser | RESP3 with out-of-band pushes: grammar, printer, blocking reader |
| CommandPacker | the printer of commands, and their batching into blocks |
| NodesManager, RedisCluster | loading the slot table, patching it after MOVED, and the redirection loop |
| PipelineSpec, ClusterPipeline | what a cluster pipeline must mean, and the pipeline |
| Cache, CacheProxy | the LRU cache, and the connection that keeps it fresh |
| PubSub | subscriptions on both sides of a connection |
| Lock | the distributed lock, its scripts and its leases |
| Transaction, WatchState | MULTI/EXEC replies put in place, and the life of a WATCH |
| BlockingPool, SentinelPool | the LIFO allocator, and the pool that follows a master |

The formats follow the Redis serialization protocol specification (sections "Simple strings", "Bulk strings",
"Arrays", "Maps" and "Pushes") and the Redis Cluster specification (sections "MOVED Redirection" and "ASK
redirection").

## Where the program does not do what one would expect

The models keep the program as it is. Where a promise fails, the exact condition is proved.

- A MOVED to the node that already heads the slot's list makes that node a replica, and duplicates it unless it is
  the only one (`ClusterNodes.NodesManager.MovedRolesExactly`, `ClusterNodes.PatchedKeepsDistinctExactly`, `ClusterNodes.MovedWellFormed`, over whole runs
  `ClusterNodes.MovedRuns`).
- A load of the topology that finds no reachable node, too many disagreements or too few slots installs no table,
  but it has already changed the roles of the installed node objects it used again. It leaves all roles alone
  exactly when it named every such node in the role it has (`ClusterNodes.NodesManager.Initialize`,
  `ClusterNodes.FailedLoadKeepsRoles`). A load in which no slot is claimed at all, where full coverage is not
  required, replaces the table by the empty one before the search for a default node raises.
- A MOVED for a slot without a list makes every look-up of any slot raise KeyError until a table is loaded
  (`ClusterNodes.NodesManager.UpdateMovedSlots`, `ClusterNodes.NodesManager.GetNodeFromSlot`).
- `delete_by_redis_keys` raises KeyError, leaving the remaining entries cached, exactly when one cached command
  reads two of the invalidated keys (`ClientCache.DefaultCache.DeleteByRedisKeys`).
- A subscribe or unsubscribe call never returns exactly when a channel is known and the connection is lost when
  it is sent, or is lost then with an error that is retried: reconnecting, under the lock of the send, subscribes
  to the known channels, and that takes the same lock, which is not reentrant
  (`PubSubs.PubSub.ExecuteCommand`, redis/client.py:771, 816-839, 846-870 and 890-916). A read reconnects outside
  the lock.
- `unsubscribe([])` unsubscribes every topic of the kind at the server and none in the client. Over a run the two
  sides agree at every moment exactly when each such call is made while the client has no topic of the kind that it
  is not already unsubscribing (`PubSubs.RunsAgree`). A reconnect brings back what was being unsubscribed
  (`PubSubs.ReconnectResurrects`).
- After EXECABORT the error raised is that of the first refused command only if no command with an
  EMPTY_RESPONSE precedes it; otherwise a plain value is raised, which is no exception
  (`Transactions.AbortRaisesTheFirstError`).
- A transaction whose stack has a raw DISCARD or EXEC and then a raw MULTI can be carried out at the server although
  a watched key has changed: exactly when the transaction that MULTI begins stands, and no watch set in between was
  touched (`WatchedPipelines.TouchedWatchCarriedOut`). The client then raises for the wrong number of results: it ends well
  exactly when everything behind the one accepted MULTI was queued and no watched key was changed
  (`WatchedPipelines.RightCountExactly`, `WatchedPipelines.Pipeline.Execute`).
- A raw WATCH queued behind a raw DISCARD or EXEC inside `multi()` outlives the transaction, unless an UNWATCH or
  a MULTI follows (`WatchedPipelines.QueuedWatchLeaks`). The connection is then released with a watch on it,
  unless the pipeline was watching before, in which case its reset sends an UNWATCH. A raw MULTI that is accepted
  in a pipeline without a transaction, and closed by nothing, leaves the released connection inside it
  (`WatchedPipelines.Pipeline.Execute`, its clause `SafeExactly`).
- A connection that a Sentinel pool drops on release stays counted, so the pool shrinks by one for good
  (`SentinelPools.ConnectionPool.Release`, `SentinelPools.ConnectionPool.GetConnection`).
- A new master's address is assigned before the idle connections to the old one are disconnected, so that another
  thread can take one in between. Over a run nothing stale can ever be taken exactly when no other master is
  assigned while the pool has an open connection (`SentinelPools.CurrentExactly`).

## Model

| member | source | states |
|---|---|---|
| Resp.RoundTrip | redis/_parsers/resp2.py:24-68 | parsing a printed reply, of any nesting and followed by any bytes, gives that reply back and stops right behind it |
| Resp.MissingBytes | redis/_parsers/resp2.py:24-68 | while any byte of a reply is missing, the parse neither finishes nor rejects it |
| Resp.ParseExtends | redis/_parsers/resp2.py:24-68 | a verdict reached on the bytes received so far is not changed by bytes that arrive later |
| Resp.StrictIsLenient | redis/_parsers/socket.py:110-118 | a reader that accepts no bare LF and one that reads over it agree on every reply the first one finishes |
| Resp.HeadOf | redis/_parsers/resp2.py:24-68 | the header line of every printed reply is classified as that kind of reply, with its text, its number, its length or its item count |
| Resp.ErrorLineExactly | redis/_parsers/base.py:91-103 | an error line comes back as an error value, except exactly for the codes WRONGPASS, LOADING and NOAUTH and four messages behind ERR, which raise |
| Resp.NoNumeralRefused | redis/_parsers/resp2.py:43-65 | a number, a length or a count that is not a sign and digits is refused with a ValueError |
| Resp.UnknownLineRefused | redis/_parsers/resp2.py:63-64 | a line of no known kind is an InvalidResponse |
| SocketIO.SocketBuffer.ReadFromSocket | redis/_parsers/socket.py:47-92 | appends received bytes behind an unmoved position until enough came; received plus still-to-come bytes are conserved, also when it times out |
| SocketIO.SocketBuffer.Read | redis/_parsers/socket.py:99-108 | the next bytes without their CRLF, or a failure only while they have not all arrived |
| SocketIO.SocketBuffer.ReadLine | redis/_parsers/socket.py:110-118 | the bytes up to the first CRLF at the end of a piece, however the pieces were cut; fails only while the strict grammar has no line either |
| SocketIO.SocketBuffer.Purge | redis/_parsers/socket.py:132-149 | never drops a byte that was not read |
| BlockingParser.Resp2Parser.ReadResponse | redis/_parsers/resp2.py:12-22 | one finished reply is consumed and nothing else; after any failure every unread byte is still unread, and a failed read means that no whole reply had arrived |
| BlockingParser.Resp2Parser.ReadWithRetries | redis/_parsers/resp2.py:12-68 | for any cutting into pieces and any number of timeouts, repeating the read ends with the printed reply and leaves exactly the following bytes |
| BlockingParser.StuckItem | redis/_parsers/resp2.py:58-65 | an array cannot be finished while one of its items cannot |
| AsyncParser.AsyncResp2Parser.Read | redis/_parsers/base.py:201-219 | bytes already taken are replayed before the stream is asked, and what is taken from the stream is kept |
| AsyncParser.AsyncResp2Parser.ReadLine | redis/_parsers/base.py:221-237 | the same for lines |
| AsyncParser.AsyncResp2Parser.ReadResponse | redis/_parsers/resp2.py:74-85 | a cancelled read keeps every byte it took, on a token boundary of the unfinished reply; a finished one takes exactly its own bytes and forgets only those |
| AsyncParser.AsyncResp2Parser.ReadThroughCancellations | redis/_parsers/resp2.py:74-132 | however often it is cancelled and called again, the result is that of an uninterrupted parse |
| AsyncParser.ReplayableItem | redis/_parsers/base.py:173-175 | what was taken of an unfinished array can be replayed from the start of any of its items |
| Resp3Wire.RoundTrip | redis/_parsers/resp3.py:39-130 | parsing a printed RESP3 reply (nested arrays, sets, maps with distinct scalar keys, verbatim strings, numbers, booleans, nulls) gives it back and routes no push |
| Resp3Wire.DictKeepsDistinctPairs | redis/_parsers/resp3.py:97-106 | filling a dict with distinct keys keeps every pair, in order |
| Resp3Wire.PushesThenReply | redis/_parsers/resp3.py:107-136 | with any pushes in front, the first reply is the result, and each push was handled once and in order: one whose first item is the string "invalidate" by the invalidation handler, or by nobody if there is none, and every other one as a message |
| Resp3Wire.FirstPush | redis/_parsers/resp3.py:107-136 | a caller that asks for pushes gets the first one with all its items, or None for an invalidation, and nothing behind it is consumed |
| Resp3Wire.PushInside | redis/_parsers/resp3.py:80-130 | a push in front of an item takes the item's place, or is handed over and followed by the item, depending on the kind of aggregate and on what the caller asked for |
| Resp3Wire.SameKeyExactly | redis/_parsers/resp3.py:97-106 | two scalars are one dict key exactly when they are equal, or a boolean and its number |
| Resp3Wire.StringMap | redis/_parsers/resp3.py:97-106 | so a map whose keys are different strings survives the round trip |
| Resp3Wire.InsertedValue | redis/_parsers/resp3.py:97-106 | a repeated key keeps its place and takes the later value |
| Resp3.StrictIsLenient | redis/_parsers/socket.py:110-118 | the two ways of ending a line agree on every RESP3 reply the strict one finishes |
| BlockingParser3.Resp3Parser.ReadReply | redis/_parsers/resp3.py:39-130 | the recursive reader computes the grammar's verdict and pushes; it fails only while the strict grammar is unfinished too |
| BlockingParser3.Resp3Parser.ReadMap | redis/_parsers/resp3.py:97-106 | the loop that fills the dict key by key is the dict of all fields, and an unhashable key is found when its value has been read |
| BlockingParser3.Resp3Parser.ReadBehindPushes | redis/_parsers/resp3.py:25-136 | a finished read behind pushes returns the reply, has handled each push once, in order and by the handler its first item asks for, and consumed exactly those frames; an uninterrupted read finishes |
| CommandPacker.WordsOnlyDropSpaces | redis/connection.py:105-108 | splitting a command name loses nothing but spaces, and no word is empty or contains one |
| CommandPacker.WordsAreTheRuns | redis/connection.py:105-108 | the words are exactly the maximal runs of bytes without white space |
| CommandPacker.PlainCommand | redis/connection.py:98-141 | a command whose name has no white space is spelled by its own arguments, unchanged and in order |
| CommandPacker.PrintThenParse | redis/connection.py:98-141 | parsing the printed commands yields for each command, in order, its name's words and then its other arguments, with nothing left over |
| CommandPacker.PythonRespSerializer.Pack | redis/connection.py:98-141 | the chunks, wherever the cutoff puts them, spell the command: a server reads its name's words and then its other arguments |
| CommandPacker.Connection.PackCommands | redis/connection.py:675-703 | the blocks spell exactly the commands, each as its name's words and its other arguments; each is a chunk sent alone for being oversized or a memoryview, or has at most twice the cutoff |
| ClusterNodes.NodesManager.Initialize | redis/cluster.py:1613-1749 | the installed table is first-claim-wins over the claims up to the first answer that completes the coverage, with at most 5 conflicts, and each node has the role it was first named in; slots share a list object exactly when they come from one section; which of the failures occurs is said exactly, and what every field becomes: all but one leave table, default node and connections alone and change exactly the roles of the connected nodes that were named, and an allowed load without any claim installs the empty table |
| ClusterNodes.NodesManager.GetOrCreateClusterNode | redis/cluster.py:1594-1611 | a node keeps the first role a load names it in, and an installed node with a connection takes that role at once |
| ClusterNodes.FirstRolesAreFirst | redis/cluster.py:1594-1611 | of several mentions of a node the first one gives its role |
| ClusterNodes.FailedLoadKeepsRoles | redis/cluster.py:1602-1607 | a failed load changes no role exactly when every connected node it named was named in the role it had |
| ClusterNodes.NodesManager.Claim | redis/cluster.py:1666-1711 | adding one section slot by slot gives the first-claim table of one more claim, and counts the claims that contradict it |
| ClusterNodes.NodesManager.CheckSlotsCoverage | redis/cluster.py:1552-1558 | true exactly when all 16384 slots are listed |
| ClusterNodes.PatchedReorders | redis/cluster.py:1457-1469 | a MOVED to a replica permutes the list: target first, old primary last, the others in order |
| ClusterNodes.PatchedKeepsDistinctExactly | redis/cluster.py:1457-1469 | the patched list has no duplicate exactly when the target was not the head already, or stood alone |
| ClusterNodes.MovedRoutes | redis/cluster.py:1442-1479 | after a MOVED the slot leads to the target, every slot keeps a route, and slots that do not share the list keep theirs |
| ClusterNodes.MovedWellFormed | redis/cluster.py:1442-1479 | all lists stay non-empty, duplicate-free and within the known nodes exactly under that condition |
| ClusterNodes.MovedRuns | redis/cluster.py:1442-1479 | over any run of MOVEDs all lists stay so at every moment exactly when none of them names the head of a longer list |
| ClusterNodes.NodesManager.UpdateMovedSlots | redis/cluster.py:1442-1479 | mutating the shared list object, or rebinding one slot, is the patch of the table for every sharing slot, and which slots share a list afterwards is said exactly; roles and a default node that was the displaced primary follow; for a slot without a list it raises, with the target made a primary and the MOVED still pending |
| ClusterNodes.NodesManager.MovedRolesExactly | redis/cluster.py:1442-1479 | the target is a primary afterwards, unless it headed its list, a displaced primary a replica, no other role changes, and a default node that was displaced is the target |
| ClusterNodes.NodesManager.GetNodeFromSlot | redis/cluster.py:1489-1531 | applies a pending MOVED once, then answers with the head of the slot's list, or raises for a slot without one; raises KeyError, changing no list, exactly when the pending MOVED is for an unlisted slot |
| ClusterClient.RedisCluster.NoteMoved | redis/cluster.py:1221-1237 | every reinitialize_steps-th MOVED, and none if that is 0, reloads the table, so that the slot leads to its owner; any other becomes pending and leaves the table alone |
| ClusterClient.RedisCluster.ExecuteOn | redis/cluster.py:1156-1261 | every send, its node and ASKING included, and the result follow from the answers: after ASK the named node with ASKING, after TRYAGAIN the same node, after MOVED the named node, or the owner if the table was reloaded; the loop ends only with a value, a lost connection, a cluster that is down, an ASK for an unknown node, or after 16 sends; only a value is an execution |
| ClusterClient.MigrationFollowed | redis/cluster.py:1156-1261 | a run of ASK and TRYAGAIN answers that name known nodes, with room for two more sends, is followed to its end, and the command executed once and answered |
| ClusterClient.RedirectionsEnd | redis/cluster.py:1156-1261 | for any run of redirections: one execution at the owner after exactly that many sends and at most one more, or none when 16 sends do not suffice |
| ClusterClient.CommandEnds | redis/cluster.py:1086-1154 | with at most 3 failures among them, and no more upsets than a round has sends for, the retries end with one execution and its answer |
| ClusterClient.RedisCluster.ExecuteCommand | redis/cluster.py:1086-1154 | each round but the last was given up for a lost connection or a cluster that is down, and the next one starts at the owner; such an error is returned only after 4 rounds; undisturbed, the owner executes the command exactly once after at most one wrong send, and the next command needs one send |
| PipelineSpec.RunAllPerSlot | redis/cluster.py:2213-2226 | running commands in order extends each slot's history by that slot's commands in order |
| PipelineSpec.GroupServed | redis/cluster.py:2577-2597 | writing one node's group executes exactly its routed commands, in order, and answers each as sequential execution would |
| PipelineSpec.RepeatOne | redis/cluster.py:2338-2369 | repeating a misrouted command at its position continues the sequential history of its slot |
| PipelineSpec.RepeatedAll | redis/cluster.py:2338-2369 | after the last repetition every slot is as after sequential execution |
| ClusterPipelines.NodeCommands.Write | redis/cluster.py:2577-2597 | one write serves the node's commands in order and clears their results |
| ClusterPipelines.NodeCommands.Read | redis/cluster.py:2599-2629 | each command gets the reply at its own place |
| ClusterPipelines.ClusterPipeline.SendClusterCommands | redis/cluster.py:2213-2387 | whatever the slot table says, the reply at every position and the state of every slot are those of running the commands one by one |
| ClusterPipelines.ClusterPipeline.Execute | redis/cluster.py:2134-2142 | the same for the commands of the stack, which is empty afterwards |
| ClientCache.RunIsLru | redis/cache.py:168-221 | over any run the ordered dict is sorted by last use, its keys and entries agree, and it is never larger than max_size |
| ClientCache.VictimIsLeastRecentlyUsed | redis/cache.py:168-178 | an overflowing set evicts at most one key, none of the rest was used longer ago, and a just-set key survives exactly when anything may be cached |
| ClientCache.DistinctExactlyWhenMatchedOnce | redis/cache.py:201-216 | the deletion loop meets no key twice exactly when no cached command reads two of the invalidated keys |
| ClientCache.InvalidationRemovesExactly | redis/cache.py:201-216 | then exactly the matching entries go and the others keep their order |
| ClientCache.DefaultCache.Set | redis/cache.py:168-178 | the dict, its move to the end and the eviction refine the specification; refused commands change nothing |
| ClientCache.DefaultCache.DeleteByRedisKeys | redis/cache.py:201-216 | completes exactly when no entry is matched twice, with one answer for each entry removed; otherwise stops at the first repetition |
| ClientCache.DefaultCache.DeleteByCacheKeys | redis/cache.py:189-199 | removes the given keys and answers true exactly for those present and not removed before |
| CacheProxy.WriteKeepsFresh | redis/connection.py:1000-1006 | a write of another client leaves every entry fresh: still the server's answer, or with an invalidation of one of its keys on the way |
| CacheProxy.ReadingKeepsFresh | redis/connection.py:996-998 | reading a message that does not concern an entry leaves it as fresh as it was |
| CacheProxy.OneKeyInvalidated | redis/cache.py:201-216 | an invalidation of one key removes exactly the entries that read it |
| CacheProxy.ReadAnswer | redis/connection.py:893-900 | what a read is answered depends on its name and the values of its keys in order, and on nothing else |
| CacheProxy.CacheProxyConnection.OnInvalidation | redis/connection.py:1000-1006 | exactly the entries concerned go, and for a flushed database all |
| CacheProxy.CacheProxyConnection.ProcessPendingInvalidations | redis/connection.py:996-998 | after the drain every entry is what the server would answer now |
| CacheProxy.CacheProxyConnection.SendCommand | redis/connection.py:879-925 | either a hit, with the server's current answer and nothing sent, or one command sent and one reply under way, every other entry fresh |
| CacheProxy.CacheProxyConnection.Keep | redis/connection.py:949-968 | a reply is cached only if not None and not invalidated meanwhile, and is then fresh; no entry stays in progress |
| CacheProxy.CacheProxyConnection.ReadResponse | redis/connection.py:930-970 | a hit returns the value of the look-up, anything else the reply to the command sent; each wire read takes one reply |
| CacheProxy.CacheProxyConnection.ExecuteCommand | redis/connection.py:879-970 | linearizable: the answer to a read, cached or not, is what the server held at some moment between call and return; left alone, the server is asked exactly for what is not cached |
| CacheProxy.CacheProxyConnection.Disconnect | redis/connection.py:866-869 | nothing is kept of a connection the server no longer tracks |
| PubSubs.RunsAgree | redis/client.py:1017-1054 | over every run, with lost connections, reconnects and resent calls: at every moment, while connected, the server has exactly the client's channels that are not being unsubscribed, each with its answer under way, if and only if every unsubscribe([]) finds no channel of its kind but such |
| PubSubs.QuietAgreement | redis/client.py:1140-1193 | once connected with no answer outstanding, or when the client stopped listening, the client's channels are the server's subscriptions |
| PubSubs.SubscribedAreTheWanted | redis/client.py:1017-1054 | without lost connections both are the topics whose last operation was a subscribe, with the handlers it gave |
| PubSubs.WantedIsLastSubscribe | redis/client.py:1017-1054 | a topic is wanted exactly when some subscribe of it is followed by no unsubscribe of it |
| PubSubs.SubscriptionPersists | redis/client.py:816-839 | a subscription lasts through acknowledgements and reconnects until its topic is unsubscribed |
| PubSubs.FlagOverRuns | redis/client.py:1033-1041 | the subscribed flag is set exactly when there is any channel |
| PubSubs.FlagIsExact | redis/client.py:1033-1041 | only a subscribe call without channels, made when there are none, breaks that |
| PubSubs.StepAgrees | redis/client.py:1043-1054 | any one step keeps that agreement exactly under the same condition |
| PubSubs.ReconnectResurrects | redis/client.py:816-839 | losing the connection and reconnecting adds exactly the channels that were being unsubscribed |
| PubSubs.PubSub.Subscribe | redis/client.py:1017-1041 | if it completes, the call is the subscribe step: server, channel map, flag and pending set change together; it blocks for ever exactly when it must reconnect and a channel is known, and otherwise completes or raises as the last of its sends does |
| PubSubs.PubSub.Unsubscribe | redis/client.py:1043-1054 | if it completes, the call is the unsubscribe step; it blocks for ever under the same condition, and an error leaves the topics marked unless it had reconnected |
| PubSubs.PubSub.ExecuteCommand | redis/client.py:846-916 | a send under the lock that must reconnect first never returns exactly when some channel is known; otherwise it is served once, in the session of the call or in a new one |
| PubSubs.PubSub.Connect | redis/client.py:816-839 | resubscribing kind by kind gives the server exactly the client's channels, with one answer each under way; under the lock it completes exactly when there are none, and outside it blocks exactly when one of its sends is repeated |
| PubSubs.PubSub.HandleMessage | redis/client.py:1140-1210 | an acknowledged topic goes only if it is being unsubscribed; a message goes to its topic's handler, or to the caller, an error is raised, and acknowledgements are returned unless they are to be ignored |
| PubSubs.PubSub.GetMessage | redis/client.py:1102-1129 | what it returns is what handling the oldest message gives, and nothing while not subscribed or without one; a lost connection is renewed first, with every channel, and whether that completes, raises or blocks is said exactly |
| Locks.AtMostOneHolder | redis/lock.py:237-285 | over all runs of all clients, at most one client's token is the stored one |
| Locks.TryTakesExactly | redis/lock.py:237-245 | a try takes the lock exactly when no lease stands |
| Locks.ReleaseFreesExactly | redis/lock.py:30-43 | a release deletes the key exactly when it is its holder's, whether or not the lease would ever expire, and changes nothing otherwise |
| Locks.LeaseIsSafe | redis/lock.py:30-43 | until a lease expires nothing other clients do, late releases included, changes the key |
| Locks.GoneForGoodInRuns | redis/lock.py:237-245 | a token that is no longer stored is never stored again |
| Locks.ExtensionsTelescope | redis/lock.py:45-68 | whenever additive extensions were asked for, a lease that still stands expires at its first expiry plus their sum |
| Locks.LeaseExpiry | redis/lock.py:45-85 | in any run, a lease that still stands expires when its holder's extensions, replacements and renewals say, each counted from its own moment |
| Locks.LeaseLength | redis/lock.py:237-317 | counted from the acquisition: acquire time, plus timeout, plus every extension |
| Locks.Lock.Acquire | redis/lock.py:190-235 | the first attempt that finds the lock free takes it; no attempt is later than the blocking timeout allows, and giving up means that the next one would be |
| Locks.Lock.Release | redis/lock.py:265-285 | forgets the token; deletes the key exactly if it still holds that token, and else leaves it and raises |
| Locks.Lock.Extend | redis/lock.py:287-317 | succeeds exactly for the holder of a lease with an expiry, which then ends at the replaced or the added time; else the key is left alone |
| Locks.Lock.Reacquire | redis/lock.py:319-343 | succeeds exactly for the holder, whose lease then ends a timeout from now; else the key is left alone |
| Transactions.InsertingMerges | redis/client.py:1476-1478 | inserting the known results in place, one after the other, is merging them with EXEC's results |
| Transactions.MergedAt | redis/client.py:1476-1478 | every position holds its own known result, or the EXEC result whose number is the gaps before it |
| Transactions.EveryResultAtItsCommand | redis/client.py:1434-1484 | a transaction that was carried out returns at each command its EMPTY_RESPONSE, or the EXEC result numbered by the commands sent before it |
| Transactions.AbortRaisesTheFirstError | redis/client.py:1463-1468 | which error an aborted transaction raises, and exactly when it is not an exception |
| Transactions.FirstErrorRaised | redis/client.py:1486-1488 | with raise_on_error the first exception in the commands' order is raised, and none otherwise |
| Transactions.NilRaisesWatchError | redis/client.py:1473-1474 | exactly EXEC's nil raises WatchError |
| Transactions.SentInOrder | redis/client.py:1435-1440 | MULTI, the commands that are not elided, in order and with their arguments, and EXEC are sent |
| Transactions.Pipeline.ReadQueued | redis/client.py:1451-1461 | notes an elided or refused command at its own position, and reads one reply for each command sent |
| Transactions.Pipeline.ExecuteTransaction | redis/client.py:1434-1501 | however it ends, as many replies were read as requests were sent; a wrong number of results disconnects |
| WatchedPipelines.SessionAfter | redis/client.py:1434-1535 | for any batch and any refusals: a transaction is left open exactly when an accepted MULTI is closed by nothing, and else a watch is left exactly when one taken outside every transaction, or an earlier one, meets no UNWATCH or MULTI |
| WatchedPipelines.ExecAnswer | redis/client.py:1470-1484 | after any stack and any refusals: EXEC answers with as many results as the transaction begun last queued exactly when that one stands, wherever it began, and no watch in force at its MULTI was touched, and nil exactly when one was |
| WatchedPipelines.TouchedWatchCarriedOut | redis/client.py:1470-1474 | a transaction under a touched watch is carried out at the server exactly when another MULTI has begun behind it and no watch set in between was touched; never without a raw MULTI |
| WatchedPipelines.RightCountExactly | redis/client.py:1476-1484 | whatever the stack, the results and noted errors are as many as its commands exactly when all that was sent before one accepted MULTI failed, all behind it was queued, and no watched key was changed |
| WatchedPipelines.TransactionCloses | redis/client.py:1470-1471 | after EXEC no transaction is open, nothing at all is left if EXEC did not fail, and what is watched does not depend on an earlier watch unless MULTI was refused |
| WatchedPipelines.PipelineWatch | redis/client.py:1533-1539 | outside MULTI the client forgets its watch exactly when the server does |
| WatchedPipelines.PipelineKnows | redis/client.py:1503-1539 | whatever a pipeline without WATCH sends, raw MULTIs included, the client still knows of any watch that is left |
| WatchedPipelines.QueuedWatchLeaks | redis/client.py:1615-1619 | with nothing refused, a watch outlives a transaction exactly when its stack has a WATCH behind a DISCARD or EXEC, with no MULTI after that and no UNWATCH after the WATCH |
| WatchedPipelines.Pipeline.Reset | redis/client.py:1328-1349 | a connection released from a safe state carries no watch and no open transaction; the UNWATCH is sent exactly under a watch that holds the connection |
| WatchedPipelines.Pipeline.ImmediateExecuteCommand | redis/client.py:1373-1417 | a connection lost under a watch raises WatchError and is released; otherwise the command is answered once, with at most `retries` connections lost before, or raises after one more; only an accepted MULTI leaves the safe states |
| WatchedPipelines.Pipeline.ExecuteCommand | redis/client.py:1368-1371 | queues or executes any command, a raw MULTI or WATCH included; outside raw transactions a watch at the server is always one the pipeline knows of and is holding the connection for, and the other way round |
| WatchedPipelines.Pipeline.Execute | redis/client.py:1434-1606 | a transaction, whatever raw commands its stack has, ends well exactly when everything behind the one accepted MULTI was queued and no watched key was changed up to EXEC; under a watch it does so only in the session of that watch; a wrong number of results disconnects and raises; each batch is answered at most once, and whether the released connection still carries a watch or a transaction is said exactly |
| BlockingPools.RunsAllocate | redis/connection.py:1695-1812 | over every interleaving: placeholders lie below connections, each connection is idle once or checked out, placeholders plus connections are max_connections, and the idle ones are in order of release |
| BlockingPools.RoomForAll | redis/connection.py:1800-1806 | the queue has room for everything that is checked out, so no release is lost |
| BlockingPools.LastReleasedFirst | redis/connection.py:1735-1767 | a thread gets the connection released last, and makes one only when all are checked out |
| BlockingPools.BlockingConnectionPool.GetConnection | redis/connection.py:1735-1785 | raises exactly when nothing is queued; a connection that cannot be made ready goes back on top |
| SentinelPools.RunsAreSafe | redis/sentinel.py:105-118 | for any number of threads, no idle connection is connected to anything but the pool's current master, unless some thread has assigned a master and not yet disconnected the idle connections |
| SentinelPools.NoStaleConnectionHandedOut | redis/sentinel.py:105-118 | after a failover was noticed and no disconnection is outstanding, whatever is taken from the pool connected goes to the new master |
| SentinelPools.CurrentExactly | redis/sentinel.py:105-118 | over any run, everything that can be taken from the pool is at every moment connected to its current master or not at all, if and only if no other master is ever assigned while the pool has an open connection |
| SentinelPools.ConnectionPool.NoteMaster | redis/sentinel.py:108-113 | the assignment step followed by the disconnection step |
| SentinelPools.Sentinel.DiscoverMaster | redis/sentinel.py:279-321 | the first sentinel with a trusted answer decides and moves to the front, the others being kept; the answer names a master that no one thinks down and that enough others know, and its address with the forced host; none is found exactly when none is trusted |
| SentinelPools.ConnectionPool.GetMasterAddress | redis/sentinel.py:105-114 | another master disconnects every idle connection, as the two steps; the same one changes nothing |
| SentinelPools.ConnectionPool.Connect | redis/sentinel.py:40-64 | a lost connection finds the master of the moment, as a connection step; one that fails keeps the pool safe |
| SentinelPools.ConnectionPool.Release | redis/connection.py:1563-1585 | only a connection to the current master becomes idle; any other is disconnected and dropped, and stays counted |
| SentinelPools.ConnectionPool.GetConnection | redis/connection.py:1507-1546 | what is handed out is the idle connection released last, or a new one, connected to the master the pool knows of; when it is refused, for which reason, and when connecting fails is said exactly |

## Left out

- Sockets, TLS, OCSP, DNS, event loops and threads: replaced by scripts of outcomes, atomic steps and a clock.
- The hiredis parser and serializer: foreign code.
- Text encodings, response callbacks, command mixins, URL parsing, CRC16 (a command carries its slot), `redis/auth`, backoff formulas, and the `redis/asyncio` clients and pools.
- The asynchronous RESP3 parser: the asynchronous reader is modelled with the RESP2 grammar.
- Resp.RoundTrip: for replies that raise no ConnectionError and lines without CR or LF; a decoded string is not modelled, nor which exception class an error text selects.
- Resp.HeadOf: an integer is an optional sign and digits; the spaces and underscores that Python's int() also accepts are rejected. A negative length other than -1 is rejected, where the program reads a negative number of bytes.
- BlockingParser.Resp2Parser.ReadWithRetries: a line with a bare LF makes the blocking reader wait although its CRLF has arrived, so such lines are outside the printed replies.
- BlockingParser3.Resp3Parser.ReadBehindPushes: a push may be handled again when the read behind it was interrupted, so the claim is about one call; what a custom push handler returns is not modelled.
- Resp3Wire.RoundTrip: a double keeps the text of its numeral; big numbers and doubles are not identified as dict keys.
- ClusterNodes.NodesManager.Initialize: host remapping and the empty-host rule are applied before a section; startup-node updates and replace_default_node are not modelled, and the default node is the first claimed primary. A node is connected by a load or by a command or pipeline sent to it; connections a load makes to reach a startup node are left out.
- ClusterNodes.NodesManager.GetNodeFromSlot: without reads from replicas and load balancing.
- ClusterClient.RedisCluster.ExecuteOn: sleeps are left out; the answers of the cluster before it settles are a script, so a migration is a run of ASK and TRYAGAIN answers, and the owners are fixed. An ASK for an unknown node is one error, whatever exception it is.
- ClusterPipelines.ClusterPipeline.SendClusterCommands: for fixed owners, single-slot commands and no connection errors; raise_on_error and response callbacks are left out. A slot's state is the list of commands it executed, of which any deterministic store is a function.
- ClusterPipelines.NodeCommands.Read: without connection errors.
- ClientCache.DefaultCache.Set: eviction policies other than LRU and evict_many are left out; the allow list is a parameter.
- CacheProxy.CacheProxyConnection.ExecuteCommand: for one connection that owns its cache, replies that depend on name and keys only, non-error replies and one key for each invalidation; connections that share a cache, and their connection_ref, are left out. Network delay is none: a command is executed when it is sent.
- PubSubs.PubSub.Subscribe: the three channel maps are one map whose keys carry their kind; health checks and key normalization are left out.
- PubSubs.RunsAgree: calls that never return take no step.
- PubSubs.PubSub.ExecuteCommand: which sends fail, and whether the error is retried, is a script. The last of too many retries, which reconnects and then raises, is left out; with a channel known that call blocks as well.
- Locks.Lock.Acquire: durations are whole milliseconds, one clock measures both sides, tokens are fresh, and a call that would wait for ever is excluded by its `limit`; thread-local storage is left out.
- Locks.LeaseIsSafe: a lease is gone at the millisecond of its expiry.
- Transactions.EveryResultAtItsCommand: for a server that aborts EXEC after any refused command; a refused MULTI is outside, since its error is inserted as if it were the first command's. Response callbacks and the annotation of errors are left out.
- WatchedPipelines.Pipeline.ExecuteCommand: script loading is left out, and the pool hands the pipeline one connection object, which may have been reconnected.
- WatchedPipelines.Pipeline.Execute: commands that are not sent because their response is known (EMPTY_RESPONSE) are left to `Transactions`, and so is which error is raised; with raise_on_error an error among the results is raised although the transaction was carried out. A reset whose UNWATCH fails keeps the connection.
- WatchedPipelines.ExecAnswer: for a server that refuses WATCH and MULTI inside a transaction, and aborts EXEC after any refused command.
- WatchedPipelines.Pipeline.Reset: an UNWATCH that is refused or times out raises and leaves the connection held, so a later belief in that watch may be mistaken.
- BlockingPools.BlockingConnectionPool.GetConnection: in one process, each connection released once; waiting for another thread's release is the state machine's, not the method's.
- SentinelPools.ConnectionPool.Connect: pools of masters only; the object's methods run one at a time, and the interleavings are the state machine's; replicas, their round-robin, and retries of the connection attempt are left out.
- Process forks, other than that no connection is foreign to its pool.
