# Verification of the replicated key-value store

A Dafny model of a master-master key-value store: nodes that hold versioned values in a sharded map and
tell each other about every change over websockets, a hub that starts, restarts and kills the node
processes, and the clients that talk to them. `dafny verify dfyconfig.toml` checks everything.

## How the model is laid out

Each object of the program that updates its fields is a class whose methods are proved against functions on
plain values; what the program promises is then proved about those functions, over every run of a state
machine that applies them. The goroutines that talk over channels (the snapshot pipeline and the watcher of a
process, `lib/processes/process.go`) are state machines only.

* **Versioned storage.** `Records` holds the rules by which one store changes; `Storages.Storage` carries
  them out over the sharded map. `Merge` and `Cluster` put the rules to work: a cluster is any number of
  stores, every message issued so far, and which node has seen which message. A delivery may happen at any
  later moment, in any order, more than once, or never. `Clocks` bounds the versions and traces the values.
  `Convergence` gives the exact condition under which a cluster, in any state whatever, must end in
  agreement, once for networks that may repeat a delivery and once for networks that may not. `Outcomes`
  draws the consequences for runs that start empty, with concrete runs that diverge and two that show what
  repeated deliveries change. `Prefix` covers keys with a single owner over ordered links, removals included.
* **Sharded map.** `Fnv` is the hash (32-bit FNV-1: multiply, then xor) and its arithmetic, `ShardedMap` the
  32 shards as one flat map, `Snapshot` and `SnapshotResults` the concurrent pipeline behind `Items`:
  copying goroutines under read locks, bounded channels, movers, the collecting caller, and writers running
  all the while.
* **Hub.** `Worker` is the handshake between `Kill` and the goroutines that watch one process. `HubSpec` is
  the supervisor as a state machine in which every fallible call has an outcome chosen by the environment
  and any process may crash at any moment; `Hubs` does the same step by step with objects; `Supervision`
  joins the two. `Mesh` adds the peer tables, connections included, that NODES requests and register messages fill;
  `Replication` is the replication client and server of one node.
* **Connections.** `Correlation` is the Go client, the server's handlers, timeouts and the reader as one state
  machine, `WsConnection` the two ends as objects, the client's tied step by step to that machine. `JsClient`
  is the JavaScript client's object, `JsRuns` every run of it over any number of connections.
* **Persistence.** `Persistence` covers saving, loading, and starting a node.

Where the code and its documentation disagree the model follows the code: a replicated change is accepted
when the stored version is less than **or equal to** the incoming one (`instance/storages/storage.go:44`
and `:55`), while the README says "less than". Two more facts of the code shape the theorems: reading a key
advances its local clock and tells nobody, and removing a key forgets its clock, so that a key set again
starts from version 1. Convergence is therefore conditional, and the condition is what is proved.

## Model

| member | source | states |
|---|---|---|
| Convergence.ConvergesExactly | instance/storages/storage.go:37-112 | for every cluster state: all ways of completing the deliveries make all nodes agree on the key if and only if there is one node, or one outcome that every node is bound to end with by what it stores and what it can still be told; with or without repeated deliveries |
| Convergence.AllEndSuffices | instance/storages/storage.go:37-57 | if every node is bound to an outcome, every schedule of deliveries ends with all nodes showing it |
| Convergence.AllEndNeeded | instance/storages/storage.go:37-57 | if all schedules end in agreement among two or more nodes, there is one outcome to which each node is bound |
| Convergence.LastWord | instance/storages/storage.go:37-57 | a message at least as new as all that a node stores or awaits can be delivered last, and then decides what the node shows |
| Convergence.EndsMeet | instance/replication/client.go:69-90 | what two nodes can end with is chosen independently, so in a cluster that always agrees it must be the same |
| Outcomes.ConvergesIffNewestAgree | instance/storages/storage.go:37-90 | in every run in which clients only Set the key, where the network may repeat deliveries: it converges under every schedule if and only if the Sets that issued its highest version agree on the value; where the network may not, that suffices |
| Outcomes.SetsConvergeIff | instance/storages/storage.go:37-90 | in every run in which clients only Set the key, whether or not the network may repeat deliveries: it converges under every schedule if and only if there is one node, or nothing was Set, or one value to which every node is led: each newest update it can hear carries it, and if it has them all it shows it |
| Outcomes.ClocksConverge | instance/storages/storage.go:37-90 | in every such run, once all updates are delivered, every node is at the highest version ever issued and holds a value issued with it |
| Outcomes.NewestIsHeld | instance/storages/storage.go:37-112 | with Gets and Removes too: a node that has the newest update, if that outranks the removals, is at its version or later, and if exactly there holds one of the newest values |
| Outcomes.RunInv | instance/storages/storage.go:37-112 | in every run of Sets, Gets, Removes and deliveries: clocks cover the updates received, ties hold an issued value, and a node issues no version twice unless a removal got in between |
| Outcomes.Repair | instance/storages/storage.go:67-90 | a Set whose version tops everything known about the key, followed by no other client operation on it, is what every node holds after delivery, whatever came before |
| Outcomes.ConflictRepair | instance/storages/storage.go:43-80 | where the key is only Set, a Set at a node that has received every update issued so far repairs whatever earlier ties left the nodes disagreeing about |
| Outcomes.RemovalPreventsConvergence | instance/storages/storage.go:53-57 | where the network may repeat deliveries: a key that was ever set does not converge if a removal at least as new as every update can still reach a node, other than its issuer, whose clock is not past it, as there are no tombstones |
| Outcomes.RemovalAllowsOnlyAbsence | instance/storages/storage.go:53-57 | for two or more nodes and both kinds of network: where some node can hear a removal topping all it stores or awaits, the cluster converges if and only if no node can hear an update any more and each lacks the key or has a removal coming that takes it |
| Outcomes.RepeatedUpdateMatters | instance/storages/storage.go:39-57 | a plain Set and Remove converges where no delivery repeats and does not where one may |
| Outcomes.AgreementNotNeededOnce | instance/storages/storage.go:43-47 | where no delivery repeats, a key that is only Set can be bound to converge although its newest values differ |
| Outcomes.TieDiverges | instance/storages/storage.go:43-47 | two simultaneous Sets swap their values for good |
| Outcomes.ReadsDiverge | instance/storages/storage.go:92-97 | two reads at a replica make it refuse the owner's next update |
| Outcomes.LateUpdateDiverges | instance/storages/storage.go:39-41 | an update that arrives after the removal of its key brings the key back |
| Merge.MergePicksTop | instance/storages/storage.go:37-51 | whatever the order, updates leave under each key a record of the highest version among the store and the messages |
| Merge.OrderIndependence | instance/storages/storage.go:37-51 | permuting and duplicating updates changes nothing if the winning updates of each key are the same |
| Merge.OrderIndependenceIff | instance/storages/storage.go:37-51 | that condition is exact |
| Prefix.GuardsAccept | instance/storages/storage.go:44-55 | a key with one owner, over links in emission order: no replica ever turns a message about it away, and each is strictly newer than what it meets |
| Prefix.ReplicaShowsPastOwner | instance/storages/storage.go:37-112 | under the same conditions, what a replica shows, absence included, is what the owner showed at some past moment |
| Prefix.ReplicaMovesForward | instance/replication/server.go:39-49 | that moment only moves forward |
| Prefix.QuiescentReplicaMatchesOwner | instance/storages/storage.go:37-112 | with everything delivered, every replica shows what the owner shows now |
| Clocks.ClockBound | instance/storages/storage.go:37-112 | in every run, every stored or issued version of a key is at most the number of client operations on it so far |
| Clocks.ClockBoundTight | instance/storages/storage.go:67-97 | one Set and then reads reach the bound |
| Clocks.Int64Exactly | instance/storages/storage.go:12-112 | the int64 clocks of the program behave as unbounded ones all along a run if and only if no operation in it takes the version after the largest int64 |
| Clocks.Int64Suffices | instance/storages/storage.go:12-15 | so they do, and no operation takes the version after the largest int64, with fewer than 2^63 client operations on each key |
| Clocks.Int64Overflows | instance/storages/storage.go:93-97 | one operation more can wrap a clock to the smallest int64 |
| Clocks.EpochMonotone | instance/storages/storage.go:37-112 | while a node holds a key its clock never goes back, and what it issues for the key in that time, a closing Remove included, strictly climbs from above the clock it started with |
| Clocks.Provenance | instance/storages/storage.go:37-112 | every value stored or issued for a key was the argument of an earlier Set of that key somewhere |
| Storages.Storage.constructor | instance/storages/storage.go:29-35 | a new storage is empty and tells nobody |
| Storages.Storage.Set | instance/storages/storage.go:67-90 | writes the value with the next version, or 1, and hands exactly that record to the set handler if there is one |
| Storages.Storage.SetWithVersion | instance/storages/storage.go:37-51 | stores a replicated update unless a newer version is there; emits nothing |
| Storages.Storage.Get | instance/storages/storage.go:92-104 | returns the stored value and advances its clock; emits nothing |
| Storages.Storage.Remove | instance/storages/storage.go:106-112 | drops the key and announces the version after the dropped one; a missing key changes and emits nothing |
| Storages.Storage.RemoveWithVersion | instance/storages/storage.go:53-57 | drops the key unless its version is newer; emits nothing |
| Storages.Storage.List | instance/storages/storage.go:114-120 | every key with its value, and nothing else |
| ShardedMap.FlatLookup | instance/storages/concurrent_map.go:21-23 | looking a key up in its home shard is looking it up in the one flat map |
| ShardedMap.FlatPut | instance/storages/concurrent_map.go:40-50 | writing a key in its home shard writes that key of the flat map, touches no other, and keeps every key in the shard it hashes to |
| ShardedMap.FlatDelete | instance/storages/concurrent_map.go:122-129 | the same for deletion |
| ShardedMap.ConcurrentMap.constructor | instance/storages/concurrent_map.go:13-19 | 32 distinct empty shards |
| ShardedMap.ConcurrentMap.GetShard | instance/storages/concurrent_map.go:21-23 | the shard selected by the key's hash |
| ShardedMap.ConcurrentMap.Get | instance/storages/concurrent_map.go:25-35 | returns the flat map's value from before the updater ran and stores the updated one; a missing key changes nothing |
| ShardedMap.ConcurrentMap.Upsert | instance/storages/concurrent_map.go:40-50 | the flat map with the callback's result under the key |
| ShardedMap.ConcurrentMap.Update | instance/storages/concurrent_map.go:52-59 | shows the callback the flat map's value and changes nothing |
| ShardedMap.ConcurrentMap.Pop | instance/storages/concurrent_map.go:122-129 | returns the flat map's value and deletes the key |
| ShardedMap.ConcurrentMap.PopIf | instance/storages/concurrent_map.go:131-140 | the same, deleting only if the predicate holds |
| ShardedMap.ConcurrentMap.Items | instance/storages/concurrent_map.go:61-69 | with no writer about, exactly the flat map |
| Fnv.Fnv32 | instance/storages/concurrent_map.go:142-150 | the loop computes the 32-bit FNV-1 fold of the bytes |
| Fnv.HashInFigures | instance/storages/concurrent_map.go:143-147 | the offset basis and the step with the program's own constants |
| Fnv.XorBit | instance/storages/concurrent_map.go:147 | a bit of the exclusive or is set exactly when the two bits differ |
| Fnv.ScaleInvertible | instance/storages/concurrent_map.go:144-146 | multiplying by the prime modulo 2^32 is undone by multiplying by 899433627 |
| Fnv.CommonSuffix | instance/storages/concurrent_map.go:142-150 | two prefixes followed by the same suffix collide if and only if they collide themselves |
| Fnv.OneByteApart | instance/storages/concurrent_map.go:142-150 | two keys of any length that differ in exactly one byte never collide |
| Fnv.ShardIndexIsFiveBit | instance/storages/concurrent_map.go:21-23 | the shard index follows a five-bit recurrence of its own: start at 5, multiply by 19 modulo 32, xor the byte modulo 32 |
| Fnv.IndexIgnoresHighBits | instance/storages/concurrent_map.go:21-23 | keys whose bytes agree modulo 32 share a shard |
| Fnv.IndexBalanced | instance/storages/concurrent_map.go:21-23 | after any prefix exactly 8 of the 256 last bytes land in each shard |
| Snapshot.ExecInv | instance/storages/concurrent_map.go:76-120 | in every interleaving with writers, each tuple that a shard held when it was locked is in exactly one place of the pipeline, nothing else is anywhere, and channels are filled within the capacity taken under the lock |
| Snapshot.WritersAreLockedOut | instance/storages/concurrent_map.go:108-114 | a writer gets to a shard exactly when no copier holds its read lock, and then changes that shard alone |
| SnapshotResults.ChannelsNeverFull | instance/storages/concurrent_map.go:76-120 | a copier with something to send and a mover with a tuple in hand always find room |
| SnapshotResults.OutClosesLast | instance/storages/concurrent_map.go:76-89 | `out` is closed only after every shard's channel is closed and drained |
| SnapshotResults.NoKeyTwice | instance/storages/concurrent_map.go:61-69 | no key is received twice, so nothing in the result is overwritten |
| SnapshotResults.CollectsTaken | instance/storages/concurrent_map.go:61-120 | the finished caller holds exactly what each shard held when it was locked |
| SnapshotResults.PerShardLinearizable | instance/storages/concurrent_map.go:61-120 | for every interleaving with writers, the result restricted to a shard is that shard's exact contents at one moment between the call and the return of `snapshot` |
| SnapshotResults.QuietSnapshotIsFlat | instance/storages/concurrent_map.go:61-120 | with no writer about the result is the flat map |
| SnapshotResults.MeasureFalls | instance/storages/concurrent_map.go:76-120 | every step of the pipeline lowers a measure that no writer raises |
| SnapshotResults.SomeStepEnabled | instance/storages/concurrent_map.go:76-120 | until the caller has everything, the pipeline has a step to take |
| SnapshotResults.ItemsCanFinish | instance/storages/concurrent_map.go:61-120 | from every reachable state `Items` can finish: no deadlock |
| Worker.OneKillReturns | lib/processes/process.go:18-57 | at most one Kill ever returns, only after the process was waited for, and none if it never started |
| Worker.ReportsNeverBlock | lib/processes/process.go:41-50 | the watching loop always finds room in the channels it reports on |
| Worker.KillCompletes | lib/processes/process.go:18-57 | the only Kill on a started process can always run to its return |
| Worker.KillReturnsUnderAnySchedule | lib/processes/process.go:18-57 | the only Kill on a started process returns under every schedule that keeps taking steps: their number is bounded, and none is left to take only once it has returned |
| Worker.KillsReturnIff | lib/processes/process.go:18-57 | all Kill calls can return if and only if there was none, or one on a process that was started |
| Supervision.HubKillsReturn | hub/instance.go:61-94 | no Kill that the hub ever calls waits for a second token, and each returns only after its process was waited for |
| Supervision.HubKillsReturnUnderAnySchedule | hub/instance.go:61-94 | and it does return under every schedule that keeps taking steps: their number is bounded, and none is left to take only once every Kill is back |
| HubSpec.NoLeakedProcess | hub/main.go:18-48 | after any requests, outcomes and crashes, each running process belongs to exactly one registered instance, the one under its own address |
| HubSpec.NoDoubledProcess | hub/main.go:18-48 | no address has two running processes |
| HubSpec.RegisteredIsLaunched | hub/instance.go:40-72 | every registered instance has a started, never killed process and an open socket, so a ping never meets a missing one |
| HubSpec.KillDiscipline | hub/instance.go:61-94 | each worker is killed at most once and never if its start failed, and a started one has not been killed exactly while it is registered |
| HubSpec.CloseDiscipline | hub/instance.go:61-128 | each socket is closed at most once, and is open exactly while its instance is registered with it |
| HubSpec.RunReportsRegistration | hub/main.go:18-48 | a RUN request succeeds exactly when its address is registered afterwards, and touches no other |
| HubSpec.AnsweringIsLeftAlone | hub/main.go:25-46 | in every run, a RUN request for a registered instance that answers its ping changes nothing and succeeds |
| HubSpec.RunStartsAfresh | hub/main.go:23-44 | in every run, any other RUN request succeeds exactly if path lookup, start, dial, ping and NODES all work, and then registers one new running process and open socket; otherwise the address is unregistered; an instance that did not answer is killed and its socket closed, and nothing else changes |
| HubSpec.RemoveKillsOne | hub/main.go:70-84 | in every run, a REMOVE request succeeds exactly for a registered address, kills that process, closes that socket, and changes nothing else |
| HubSpec.CrashEndsOne | lib/processes/process.go:53 | a crash ends one process; the hub does not notice |
| HubSpec.ShutdownLeavesNothing | hub/main.go:126-129 | once the loop over all listed instances has completed, no process the hub started runs and every socket was closed exactly once |
| HubSpec.InterruptedLeaves | hub/main.go:120-129 | the goroutine that serves requests exits the program once the listener is shut down, wherever the loop then is: exactly the processes of addresses not yet killed go on running, and exactly the sockets the loop had not reached stay open |
| HubSpec.ExitIsCleanIff | hub/main.go:120-129 | such an exit leaves no process running if and only if every address with a live process had been killed, and no socket open if and only if the loop had reached every registered address |
| HubSpec.EarlyExitOrphans | hub/main.go:120-129 | one instance and an exit before the loop gets to it: its process goes on without a hub, its socket unclosed |
| HubSpec.StartEffect | hub/instance.go:74-128 | for every outcome of path lookup, start, dial, ping and NODES: success exactly if all work, with one running process and one open socket; on failure nothing runs, nothing is open, and what the instance keeps of its worker and socket is such that a later kill has nothing to touch |
| HubSpec.KillEffect | hub/instance.go:61-68 | killing a registered instance kills its process once, closes its socket once, and keeps the hub's invariant |
| HubSpec.RestartIsRemoveThenStart | hub/instance.go:53-59 | a restart leaves the hub as a removal followed by a fresh start would |
| Hubs.Instance.UnsafeKill | hub/instance.go:61-68 | the object's step equals the specified one |
| Hubs.Instance.RunWorker | hub/instance.go:96-109 | a worker is kept even when the process does not start |
| Hubs.Instance.CreateWs | hub/instance.go:111-128 | a failed ping leaves a closed socket behind |
| Hubs.Instance.Start | hub/instance.go:74-94 | the steps in sequence, with the clean-up of each failure, equal the specified start |
| Hubs.Instance.Restart | hub/instance.go:53-59 | kill, then start |
| Hubs.Register.Keys | hub/register.go:65-72 | every registered address exactly once |
| Hubs.Server.NewInstance | hub/instance.go:29-38 | a fresh instance, started as specified |
| Hubs.Server.Run | hub/main.go:18-48 | the RUN handler over objects in place refines the state machine's request, answer included, and keeps each instance under its own address |
| Hubs.Server.RunRegistered | hub/main.go:23-35 | its branch for a registered address |
| Hubs.Server.RunNew | hub/main.go:36-44 | its branch for a new address |
| Hubs.Server.Remove | hub/main.go:70-84 | the REMOVE handler, likewise; an unknown address is an error and changes nothing |
| Mesh.HubRunsUnchanged | hub/main.go:18-84 | the hub inside the mesh is that of `HubSpec` after the same requests and crashes |
| Mesh.FullMesh | instance/replication/client.go:31-67 | for any two live registered nodes a and b: a lists b and keeps no connection under it but one to b's running process, or b is the younger and word from it to a's very process is on its way; across starts, crashes, restarts and removals, messages lost with either process, and connections kept to dead ones |
| Mesh.StaleConnectionIsCorrected | instance/replication/client.go:102-117 | a node that keeps a connection to a process that is gone, under the address of a live peer, will hear from the new process, and its register message makes the node dial afresh |
| Mesh.QuietMeshIsComplete | instance/replication/client.go:31-117 | once no live process has an announcement to make or on its way, all live nodes list each other and what each sends to another reaches the process that runs there and no other, whatever dead processes left behind |
| Mesh.MeshCanComplete | instance/replication/client.go:57-117 | from every reachable state the announcements can go on, without another request, until all live nodes list each other |
| Mesh.DeliveryTeaches | instance/replication/client.go:31-39 | a register message that arrives puts its sender into the receiver's table, without a connection |
| Mesh.TalkingKeepsConnection | instance/replication/client.go:102-117 | any broadcast uses the connection kept for a peer, or makes one to the process that runs there and keeps it |
| Mesh.NobodyListsItself | instance/replication/client.go:34-53 | no node ever lists itself |
| Replication.Client.HandleRegisterRequest | instance/replication/client.go:31-39 | enters the sender, forgetting any old connection, unless it is the node itself |
| Replication.Client.HandleNewNodesRequest | instance/replication/client.go:41-66 | enters every listed address but its own and launches one announcement; a list that does not decode changes and launches nothing |
| Replication.Client.ForNodes | instance/replication/client.go:102-117 | sends once to each peer that has a connection or can be dialled, over that connection, keeps those it made, skips the others and keeps them listed |
| Replication.WhoIsTold | instance/replication/client.go:102-117 | the same of the functions that the mesh runs on: who is told, over which connection, and what is kept |
| Replication.Client.HandleUpdated | instance/replication/client.go:80-90 | that, with the update |
| Replication.Client.HandleRemoved | instance/replication/client.go:69-78 | that, with the removal |
| Replication.Client.Announce | instance/replication/client.go:57-64 | that, with the node's own address |
| Replication.Server.Route | instance/replication/server.go:32-52 | an update or removal goes to the storage only, a register request to the peer table only |
| Correlation.SendSyncReturnsOwnAnswer | lib/ws/client.go:64-99 | with Sends one at a time, for every interleaving of handlers, early or repeated responses and timeouts: a SendSync that succeeds returns what a handler answered to its own message |
| Correlation.ResponseIsHandedOver | lib/ws/client.go:25-31 | in every run, a response read while its query is in the table and its call waits is returned by that call, payload unchanged, and the query leaves the table |
| Correlation.CallCompletes | lib/ws/client.go:64-99 | from every reachable state in which nobody sends and the reader is at its loop, a message sent, answered and read comes back as the result of its own call |
| WsConnection.CallReturnsHandlersAnswer | lib/ws/server.go:115-128 | from end to end: such a call returns what the server's handler makes of the caller's message |
| WsConnection.ReplyIsHandled | lib/ws/server.go:115-128 | the frame that the server queues for a request is what the state machine counts as a handler's answer to it |
| Correlation.OutcomeIsFinal | lib/ws/client.go:87-99 | over every run, a call that has returned or timed out keeps its outcome |
| Correlation.TimeoutsEnd | lib/ws/client.go:78-95 | the short timeout fails a waiting call, the long one takes its query out of the table |
| Correlation.StopIsFinal | lib/ws/client.go:35-44 | a reader that has met an error hands over nothing more |
| Correlation.IdsAreNotReused | lib/ws/client.go:65-69 | the message of an id never changes |
| Correlation.OnePayloadPerChannel | lib/ws/client.go:25-31 | no result channel ever receives a second payload |
| Correlation.ReaderNeverBlocks | lib/ws/client.go:25-31 | the reader always finds room for the response in its hand |
| Correlation.EarlyResponseIsDropped | lib/ws/client.go:75-77 | a response that overtakes the table entry of its request changes nothing |
| Correlation.LateOrEarlyNeverReturns | lib/ws/client.go:25-31 | over every run: a call returns only a payload that the reader received while its query was in the table, so one whose responses all came earlier, or after it expired, can only time out |
| Correlation.SendComposes | lib/ws/client.go:64-85 | the object's Send is the machine's Write and Store |
| Correlation.ResponseComposes | lib/ws/client.go:25-31 | in every reachable state, the object's handling of a response is the machine's Read, Put and Delete |
| Correlation.ExpireComposes | lib/ws/client.go:78-83 | the object's Expire is the machine's |
| WsConnection.ClientConnection.Send | lib/ws/client.go:64-85 | the frame under the next id, a fresh channel of its own in the table, and the object's view stepped as the state machine steps |
| WsConnection.ClientConnection.HandleResponse | lib/ws/client.go:25-31 | the query with that id gets the payload, without waiting, and leaves the table, as the state machine does it; no other channel is touched |
| WsConnection.ClientConnection.Expire | lib/ws/client.go:78-83 | the query leaves the table, as in the state machine |
| WsConnection.ServerConnection.Handle | lib/ws/server.go:104-130 | one frame is queued behind the others: under the message's id with what the handler says, or plain text if the frame was no message |
| WsConnection.Reply | lib/ws/server.go:104-130 | messages and only they are answered with a message, under their own id and with the handler's answer to their payload |
| JsClient.BaseApiClient.constructor | js-sdk/index.js:53-59 | the first connection |
| JsClient.BaseApiClient.CreateConnection | js-sdk/index.js:95-107 | ids, table and queue start over; no promise is touched |
| JsClient.BaseApiClient.SendRequest | js-sdk/index.js:74-90 | the next id, a new waiting promise in the table, and the request sent or queued |
| JsClient.BaseApiClient.OnOpen | js-sdk/index.js:109-113 | the queue is sent in order behind what was sent before |
| JsClient.BaseApiClient.SendAllPending | js-sdk/index.js:115-120 | likewise |
| JsClient.BaseApiClient.OnMessage | js-sdk/index.js:134-148 | the promise with that id, if it still waits, is resolved with the result of a success or rejected with the error of anything else; the table keeps its entry |
| JsClient.BaseApiClient.OnClose | js-sdk/index.js:167-171 | every waiting promise in the table is rejected, the table emptied |
| JsClient.BaseApiClient.RejectAll | js-sdk/index.js:150-155 | likewise |
| JsRuns.WireIsNumbered | js-sdk/index.js:74-120 | in every run, on each connection the ids sent and then queued are 1, 2, 3, ... in call order, and an open connection has nothing queued |
| JsRuns.CloseSettlesAll | js-sdk/index.js:150-177 | at a close every promise made since the connection was created is settled: those that still wait are rejected by it, the others keep their outcome |
| JsRuns.LostIffMadeInGap | js-sdk/index.js:95-107 | a promise of an earlier connection is unsettled if and only if it was made between that connection's close and the reconnect |
| JsRuns.SettledForGoodOrNever | js-sdk/index.js:134-177 | a settled promise keeps its outcome; one made in the gap is settled by no later event whatever |
| JsRuns.ResponseSettlesItsCall | js-sdk/index.js:134-148 | a response settles the promise of the call with its id on this connection and no other, once |
| JsRuns.CanOpen | js-sdk/index.js:95-113 | from every reachable state, closed ones included, the client can get to an open connection without touching a promise |
| JsRuns.CallIsAnswered | js-sdk/index.js:74-148 | on an open connection a call is sent at once under the next id, and the response with that id resolves or rejects its promise |
| JsRuns.ResponseResolvesOrRejects | js-sdk/index.js:138-145 | in every reachable state, a success resolves the waiting promise with its result and anything else rejects it with its error |
| JsRuns.WaitsUntilAnswered | js-sdk/index.js:134-148 | until the close a promise waits if and only if no response with its id has arrived |
| JsRuns.AnswersNeverShrinkTable | js-sdk/index.js:134-148 | the table keeps one entry for every request of the connection, answered or not: the delete removes a key of the entry, not the entry |
| JsRuns.PromisesGetOwnAnswers | js-sdk/index.js:74-177 | if the server answers what it was asked, then over all connections each promise waits, or was rejected by the close of its own connection, or was resolved with the result of a success or rejected with the error of a failure that answered its own request |
| JsRuns.HandlersStaySound | js-sdk/index.js:134-155 | the handlers' table never names a promise that does not exist |
| Persistence.Persister.Load | instance/persistance.go:24-41 | the values are those held before, overwritten by the saved ones; without handlers nothing is emitted; an unreadable file, or one that cannot be opened, changes nothing |
| Persistence.Persister.Persists | instance/persistance.go:52-66 | the file holds the listed values, or is untouched if it cannot be created, or is destroyed if encoding fails |
| Persistence.StartNode | instance/main.go:97-121 | a started node holds what the file holds, has emitted nothing, and has its handlers installed |
| Persistence.LoadOrderIrrelevant | instance/persistance.go:38-40 | every order of enumerating the saved map loads the same store |
| Persistence.RestartKeepsValues | instance/persistance.go:24-66 | saving and loading into a fresh store gives back the same List, with all versions 1 |
| Persistence.RestartKeepsStoreIff | instance/persistance.go:24-66 | it gives back the same store if and only if all versions were 1 |
| Persistence.RestartRecoversIff | instance/persistance.go:52-66 | after any history of saves a restart gives back a wanted, non-empty map if and only if the last save that created the file wrote that map |
| Persistence.FileIsLastTouch | instance/persistance.go:52-66 | an older good save never shows through a later failed encoding |
| Persistence.RestartedNodeIsHeardIff | instance/storages/storage.go:43-80 | a peer that kept its clock takes the n-th Set of a restarted node if and only if its own version is at most n + 1 |

## Left out

- Websocket framing, dialling, deadlines, pings, the read limit and the batching of queued frames into one websocket message (`lib/ws/server.go:74-78`): one response per frame, and a reader may stop at any moment.
- JSON and gob encoding: encoding and decoding either fail or give back the same value; the text of the plain error reply is fixed, and requests and responses are one shape, as their encodings are.
- Logging, files other than the saved map, signals, flags, and the search for the instance's executable, which is an outcome.
- Real time: the 50 ms pause, the 1 s and 60 s timeouts and the 2 s save loop are steps that may happen at any moment, or never.
- Goroutine interleavings inside one storage operation: the operations hold their shard's lock, so each is one step; the exception is `Items`, whose pipeline is modelled step by step in `Snapshot`. There the shard order of locking is free and writers may replace a shard's contents in any way that keeps keys in the shard they hash to.
- The memory order in which `snapshot` writes the slots of its slice, and a reader's view of it, beyond the wait group.
- ShardedMap.ConcurrentMap.Update: returns what its callback would be shown instead of calling it, so effects of the callback are not modelled.
- ShardedMap.ConcurrentMap.Items: the object's version is for callers with no writer about, in one loop over the shards; the goroutines, channels and writers are in `Snapshot`.
- Storages.Storage.AddSetHandler: records that a handler is installed, not which one; so does `AddRemoveHandler`.
- Late joiners: a node that joins gets no state from the others, so membership is fixed in `Cluster` and treated by itself in `Mesh`.
- How likely or how fast a schedule of deliveries is: convergence is about all the schedules still possible.
- Nothing in the program enforces the hypotheses of `Prefix`, one owner for the key and links in emission order.
- In `Mesh` a register message is lost only with its sender or its receiver; a failed dial of a live node is not modelled there.
- Unsynchronised Sends: the request counter is not locked in `lib/ws/client.go:65`, and `Correlation` takes Sends one at a time, as `forNodes` makes them.
- The bound of 256 on the server's queue of replies, and `Close` of a client connection beyond stopping its reader.
- `hub/register.go:43-63`: `Exists`, and `List` other than the order in which shutdown visits it; requests that race with shutdown. An exit in the middle of one Kill is modelled between closing the socket and the kill, not inside the handshake.
- JavaScript values: a promise is identified by its position among all promises made, ids are numbers, and a response that does not parse or whose id names a property that every object inherits changes nothing.
- `lib/routers` (dispatch by action name), the request wrappers of the JavaScript SDK and the samples.
