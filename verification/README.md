# Gateway-mt: replication, locks and caches

A Dafny model of the stateful cores of Gateway-mt, and proofs of what they keep over every run.
`dafny verify dfyconfig.toml` checks everything.

**Replication of the auth service (badgerauth).** Every node keeps records, one logical clock per
origin and a replication log. Nodes ping a peer, send it their clocks, receive the log entries past
them, and insert these. Replies carry no clock: the receiver numbers the entries itself, against
clocks it read before it asked. What this preserves is therefore a fact about whole runs.

| files | content |
|---|---|
| `Types`, `Replicas`, `DatabaseLaws`, `Lifetime` | one node's state and transactions as values, the laws every run of them keeps, and how long a record that was put is found, and as what |
| `Cluster` | the protocol as a step relation: any number of nodes, any interleaving, lost replies, refused batches, time |
| `PrefixSafety`, `Refusals`, `Convergence`, `Holes`, `Delivery` | what holds of every run of the cluster |
| `Scenarios`, `RelayedHoles`, `RefusedPulls` | concrete runs that show which hypotheses are needed |
| `ByteOrder`, `ReplicationLog` | the byte encodings and their order |
| `Storage`, `Representation`, `Database`, `NodeDatabase` | the flat byte store with transactions and iterators; what it represents; the database methods, each proved to do what the abstract transaction does |
| `Node` | one node's synchronization with a peer over two such databases, proved to be a run of the protocol |

**Other cores.** `MutexGroup` (named mutexes that come and go), `TxtRecords` (the DNS cache under
such a mutex), `LeaseLock` (a lease lock made of conditional requests on one cloud object), and
`Limiter` (per-key concurrency) each have a class and a state machine that interleaves the same
functions over any number of callers. The methods of `MutexGroup`, of the bucket and of `Limiter` are
the machine's atomic sections; a whole cache update and a whole attempt to lock are proved to be the
machine's steps one after the other. `TxtRecordSet` (values
split over text records), `RangePrediction` (Range headers, with 64-bit wrap-around), `Backoff` (delays
with 64-bit wrap-around, and the retry loop they bound) and `BodyCache` (a seekable request body) are
sequential; `Text`, `StringOrder` and `Powers` hold the strings and numbers under them.

Runs are sequences of states and actions, `Run(states, actions)`; theorems quantify over all of them.

**False as one might first state it.** Five properties fail without a condition. Each has the exact
condition, or a run that breaks the property without it:

- The delays of a backoff are min(Max, Min·2^(k−1)) for every k exactly when Max < 2^62. At
  Max = 2^62 the first wait after the maximum overflows (`DelaysExact`). Up to the maximum they are
  right, and the retry loop is bounded by the ideal number of waits, exactly when the last doubling
  fits 63 bits (`ReachesExact`, `RetriesBounded`), which Max ≤ 2^62 implies. Whether the loop ends at all
  is settled by the first 65 waits (`RetriesEnd`); with the longest bounds it need not (`RetriesForever`).
- A predicted range is the one the header selects exactly when `Predictable` says so: a suffix must
  not exceed the object, which must be smaller than 2^62, and a last position of 2^63−1 is right only
  with first position 0 (`PredictionExact`). An empty suffix is taken for the whole object
  (`EmptySuffixIsWhole`). The comment of `predictRange` promises RFC 7233; the model follows the code.
- A node that gets entries of an origin through a third node may skip a live one when the origin's log
  has holes (`RelayedPullsSkip`). It does not if the third node agrees with the origin's live log
  (`NothingLiveIsSkipped`), which without holes it always does (`LastingIsAligned`).
- A pull need not make the gap smaller: with holes an entry is asked for again, and if its record was
  updated meanwhile the reply is refused, this time and every time after (`PullsRefusedForever`). It does
  whenever every entry is accepted (`ApplyMoves`, `BatchExact`), in particular in any run in which
  nothing is updated and puts of one key carry one record (`PullsCloseTheGap`).
- The lease lock excludes exactly if no claimed object was created anew between a contender's look at
  its predecessor and the deletion (`ExclusionExact`, `RecreationBreaksExclusion`), since the
  metageneration restarts at 1.

**Assumptions.** A peer address always leads to the same node id, and ids are distinct; a node has one
outgoing sync at a time (`syncAll` visits peers one after the other). Clocks stay below 2^64−1. Time
stands still within a transaction, is below 2^63, is the node's own, and never runs backwards. A key
hash is 32 bytes and does not begin with `replication_log/` or `clock_value/`, which the scans by these
prefixes need. Storage engine transactions are serializable; whether one commits is a parameter. Record encoding is a bijection.
DNS time-to-live values are not negative and the clock of the TXT cache does not run backwards.
A request body that is asked for bytes delivers at least one or reports an error; the contract of
`io.Reader` discourages reading nothing without an error, but does not forbid it.
Limited handlers do not panic. Only a mutex that holds the lease lock unlocks it, and a claimed lock
object is judged no later than the expiration its last creation or refresh wrote (`InTime`). A request of the lease
lock takes effect while its sender waits for the reply or not at all, so no delayed deletion of an
earlier holder meets a later object.

## Model

| member | source | states |
|---|---|---|
| DatabaseLaws.DatabaseLaw | pkg/auth/badgerauth/db.go:429-490 | Between any two moments of any run of puts, batches, ensured clocks, updates, deletions and time: every live log entry has a record with its expiry, clocks never decrease, no log position is reused; without deletions the log clocks of an id are exactly 1..clock, one entry each. |
| DatabaseLaws.DoLaw | pkg/auth/badgerauth/db.go:260-277 | One transaction, committed or aborted, keeps the laws; no put or replicated insert replaces a live record by an unequal one. |
| DatabaseLaws.InsertAllLaw | pkg/auth/badgerauth/db.go:354-377 | A batch keeps the laws, whatever its entries repeat. |
| DatabaseLaws.DeleteExact | pkg/auth/badgerauth/db.go:407-417 | From a deletion on, at every later time, the key has no record and no log entry under any id, and every other record, entry and clock is as before. |
| Lifetime.FoundUntilExpiry | pkg/auth/badgerauth/db.go:479-485 | In any run from the empty database, after a put with expiry e and any transactions that neither put nor delete its key: at time t the record can be got, updated and deleted, makes a put of the key fail, and its log entry is in every unlimited scan from before it, if and only if e is not positive or t < e. |
| Lifetime.GetAfterPut | pkg/auth/badgerauth/db.go:167-230 | The round trip over any such run: Get yields nothing from the expiry on; before that the reason of the last invalidation, if there is one; and otherwise the very record that was put, field by field, public if it was put so and never unpublished. |
| Lifetime.RunBecomes | pkg/auth/badgerauth/admin.go:42-61 | Until it expires the stored record is the one put, but for the reason and time of the last invalidation and the end of publicity. |
| Replicas.ScanUnique | pkg/auth/badgerauth/db.go:290-314 | "The first `limit` live entries past a clock", or all of them if the limit is negative, names one sequence. |
| Cluster.RequestClocksStayCurrent | pkg/auth/badgerauth/node.go:569-600 | When a node applies a reply, its clock for every requested id is the one it sent, whatever happened in between; its own id is never requested. |
| Cluster.OwnEntriesAreOwnPuts | pkg/auth/badgerauth/db.go:329-352 | A log entry under a node's own id arises only from its own put of that key. |
| Cluster.AnswersNeverFail | pkg/auth/badgerauth/node.go:409-445 | In any run, with deletions, expiry and re-insertion, a peer finds the record of every entry it answers with. |
| Cluster.NodesOnlyGrow | pkg/auth/badgerauth/clock.go:56-85 | In any run no clock of any node decreases and no log position is reused. |
| Cluster.InsertAllClocks | pkg/auth/badgerauth/db.go:308-312 | The receiver's renumbering raises each clock by the number of entries for that id. |
| PrefixSafety.LogsArePrefixes | pkg/auth/badgerauth/db.go:282-377 | Without deletion or expiry, in every reachable state: the log a node holds for an origin, whether pulled directly or relayed, is entry by entry what the origin logged up to the node's clock for it. |
| PrefixSafety.BatchFollows | pkg/auth/badgerauth/db.go:429-490 | Entries that continue the origin's log past the receiver's clock get the origin's own clocks when inserted. |
| PrefixSafety.ScanConsecutive | pkg/auth/badgerauth/db.go:296-314 | In a log without holes a scan finds the clocks directly after the requested one. |
| Refusals.BatchExact | pkg/auth/badgerauth/db.go:354-377 | A reply is applied if and only if no entry is of another state or has a reserved key, and none meets a live record of its key that is not equal to it, stored or earlier in the reply. |
| Refusals.SteadyNeverRefuses | pkg/auth/badgerauth/db.go:444-451 | In any run in which nothing is updated and the successful puts of one key carry one record, no reply is ever refused, whatever is deleted, expires or is relayed, and the record of each entry is stored as sent. |
| Convergence.Converges | pkg/auth/badgerauth/node.go:349-356 | After puts stop, once there have been enough rounds of everyone syncing everyone to cover each gap at `limit` entries per round, all clocks and logs are equal, updates or not, and all records if none was updated. Syncs overlap freely; a pull counts if its node has begun a sync since the last put. |
| Convergence.PullRaises | pkg/auth/badgerauth/node.go:497-600 | A pull from an origin by a node that has begun a sync after the last put raises its clock for the origin by exactly min(limit, lag), by the whole lag if the limit is negative, whatever the other nodes are doing. |
| Convergence.RoundsShrink | pkg/auth/badgerauth/db.go:282-318 | After r rounds a gap is closed or smaller by r times the limit. |
| Convergence.AppliesNeverFail | pkg/auth/badgerauth/db.go:354-377 | With each key put once and nothing deleted or expired no reply is ever refused, although records may be updated. |
| Convergence.ScanCount | pkg/auth/badgerauth/db.go:295-299 | A scan of a log without holes has exactly min(limit, clock − requested) entries. |
| Holes.NothingLiveIsSkipped | pkg/auth/badgerauth/db.go:290-314 | With any deletions, expiry and puts of deleted keys: a node that gets an origin's entries from the origin, or from nodes that have its live entries under the same clocks, never has a clock beyond the origin's, and has applied, under its own log position, every still live entry at or below its clock; an entry of a key received before does not stand for a later one. |
| Holes.LastingIsAligned | pkg/auth/badgerauth/db.go:282-377 | Without deletion and expiry every relay has the live entries of every origin under the same clocks. |
| Holes.ApplyMoves | pkg/auth/badgerauth/clock.go:56-72 | Applying a reply moves the clock for an origin by the number of its entries if every entry is accepted, and otherwise changes nothing; it never passes the origin's clock. An applied reply stores the record of every entry that is not expired. |
| Holes.PullsCloseTheGap | pkg/auth/badgerauth/node.go:569-600 | In any run in which nothing is updated and puts of one key carry one record, though entries are deleted and expire, every pull that brings entries of an origin makes the gap strictly smaller, by their number, and leaves each of them stored with the very record sent. |
| Delivery.AllLiveDelivered | pkg/auth/badgerauth/node.go:497-600 | In such runs, if an origin puts nothing new, a node that has pulled from it one time more than its gap has applied every entry of the origin that is still live, then and for ever. |
| Delivery.PullDelivers | pkg/auth/badgerauth/db.go:282-318 | Each pull from the origin makes the gap smaller, or the origin has nothing live past the clock of the puller. |
| RelayedHoles.RelayedPullsSkip | pkg/auth/badgerauth/db.go:308-312 | A run of three nodes in which a node's clock passes a live entry it never received and will never ask for. |
| RefusedPulls.PullsRefusedForever | pkg/auth/badgerauth/db.go:444-451 | A run of two nodes that goes on with any number of pulls from the origin: each brings a live entry past the puller's clock, each is refused, and the gap stays 1. |
| ByteOrder.BigEndianOrder | pkg/auth/badgerauth/clock.go:31-35 | Byte order of equally long big-endian numbers is numeric order. |
| ReplicationLog.DecodeEncode | pkg/auth/badgerauth/replication_log.go:44-96 | Parsing undoes encoding for every entry, all 32-bit states included. |
| ReplicationLog.EncodeDecode | pkg/auth/badgerauth/replication_log.go:67-96 | Encoding undoes parsing exactly when the prefix and the three separators, which parsing skips, are the expected bytes. |
| ReplicationLog.EncodeInjective | pkg/auth/badgerauth/replication_log.go:44-59 | Different entries have different keys. |
| ReplicationLog.PrefixIsId | pkg/auth/badgerauth/db.go:286-288 | A key has the prefix of an id just if it is an entry of that id. |
| ReplicationLog.StartKeyOrder | pkg/auth/badgerauth/replication_log.go:98-105 | Start keys of one id are ordered as their clocks. |
| ReplicationLog.EncodeOrder | pkg/auth/badgerauth/replication_log.go:44-59 | Entries of one id are ordered as their clocks, whatever keys and states follow. |
| ReplicationLog.SeekOrder | pkg/auth/badgerauth/db.go:290-296 | Seeking a start key skips exactly the id's entries with a smaller clock. |
| ReplicationLog.ReplicationLogEntry.SetBytes | pkg/auth/badgerauth/replication_log.go:67-96 | Fails exactly on a wrong length, then without a change; otherwise sets the decoded fields. |
| Representation.KeyKinds | pkg/auth/badgerauth/clock.go:51-53 | Clock keys, log keys, the node id key and key hashes never collide. |
| Representation.RemoveLog | pkg/auth/badgerauth/db.go:505-527 | Deleting the store keys that name a hash removes exactly its live log entries. |
| Database.AdvanceClock | pkg/auth/badgerauth/clock.go:56-72 | Returns and stores the id's next clock and changes nothing else in the represented state. |
| Database.EnsureClockTxn | pkg/auth/badgerauth/clock.go:74-85 | Adds a zero clock if there is none, and otherwise changes nothing. |
| Database.ReadAvailableClocks | pkg/auth/badgerauth/clock.go:87-118 | The scan by prefix yields exactly the clocks of the represented state. |
| Database.InsertRecord | pkg/auth/badgerauth/db.go:429-490 | The byte-level transaction succeeds and fails exactly as the abstract insertion, with the same errors, and leaves what it leaves. After a success a transaction at time t finds the record's value, and its log key, just if ExpiresAtUnix is not positive or greater than t. |
| Database.FindResponseEntries | pkg/auth/badgerauth/db.go:282-318 | Seek, prefix and limit over the byte-sorted store return exactly the first `limit` live entries of the id past the clock, in clock order, with their records, and none of another id. |
| Database.FoundIsScan | pkg/auth/badgerauth/db.go:295-299 | The keys an iterator visits from a seek on, cut at the limit, are the abstract scan. |
| Database.CollectEntries | pkg/auth/badgerauth/db.go:295-314 | The loop turns the visited keys into the entries shipped for them, or reports a missing record. |
| Database.DeleteReplicationLogEntries | pkg/auth/badgerauth/db.go:505-527 | Removes the live log entries of the key under every id and nothing else. |
| NodeDatabase.DB.PutAtTime | pkg/auth/badgerauth/db.go:167-198 | Refused as existing just if the key has a record whose ExpiresAtUnix is not positive or still ahead, as a conflict just if nothing else is wrong and the commit fails, and then nothing changes. Otherwise every field of the stored record is the given one (expiry 0 if none, no invalidation, created now), the node's next clock logs the key with that expiry, and all else is as before. |
| NodeDatabase.DB.Get | pkg/auth/badgerauth/db.go:200-230 | Nothing just if there is no record or it has expired, an error with the reason if it was invalidated, and otherwise the record as it was given. |
| NodeDatabase.DB.InsertResponseEntries | pkg/auth/badgerauth/db.go:354-377 | All entries are inserted in order or none is; a batch without error is reported as done or, if the commit fails, as a conflict. |
| NodeDatabase.InsertBatch | pkg/auth/badgerauth/db.go:357-375 | The loop on the transaction's copy is the abstract batch, with the error of the first failing entry. |
| NodeDatabase.UpdateTxn | pkg/auth/badgerauth/db.go:386-405 | On the transaction's copy: the record is written back with its expiry and with just the named fields changed, or the key is missing, expired or reserved. |
| NodeDatabase.DB.FindResponseEntries | pkg/auth/badgerauth/db.go:282-318 | As above on the committed state: each entry carries the id, the key its log position names and the record that key has, neither of them expired; nothing unexpired past the clock is left out below the limit. An error means a found position whose record is missing or expired, and never happens while the laws hold. |
| NodeDatabase.DB.BuildRequestEntries | pkg/auth/badgerauth/db.go:329-352 | One entry for every known clock but the node's own, with its value, in any order. |
| NodeDatabase.DB.UpdateRecord | pkg/auth/badgerauth/db.go:386-405 | An invalidation sets exactly the given time and reason, unpublishing sets public to false; every other field, key, clock and log entry is as before. Refused just if the record is missing or expired, the key reserved, or the commit fails, and then nothing changes. |
| NodeDatabase.DB.DeleteRecord | pkg/auth/badgerauth/db.go:407-417 | The record and exactly the log entries of its key that have not expired are gone, under any id; all else is as before. Refused just if the record is missing or expired, the key reserved, or the commit fails, and then nothing changes. |
| NodeDatabase.DB.EnsureClock | pkg/auth/badgerauth/db.go:321-327 | A clock that did not exist is 0, all others and everything else are as before; an aborted transaction changes nothing. |
| Nodes.Replicate | pkg/auth/badgerauth/node.go:409-445 | The answer is, for each requested clock in turn, the first `limit` live entries past it with their records; a negative limit does not limit. |
| Nodes.Peer.PingClient | pkg/auth/badgerauth/node.go:539-567 | A sync goes on only with a peer that answers under another id and whose clock exists; otherwise the replica is unchanged. |
| Nodes.Peer.Ask | pkg/auth/badgerauth/node.go:569-588 | The request has every clock but the node's own, and the reply is the peer's answer to it. |
| Nodes.Peer.SyncRecords | pkg/auth/badgerauth/node.go:569-600 | The replica after the peer's whole answer to all clocks but the node's own, or unchanged. |
| Nodes.Peer.Sync | pkg/auth/badgerauth/node.go:497-519 | However a sync ends, the replica is the old one, that with the peer's clock ensured, or that with the whole answer applied. |
| Nodes.SyncIsRun | pkg/auth/badgerauth/node.go:497-600 | What a sync does to the node, whether no reply arrives, it is applied, refused or aborted, is done by a run of the protocol that changes no other node. |
| Nodes.SyncContinuesRun | pkg/auth/badgerauth/node.go:497-600 | A sync takes any run from the initial state to a longer one, of which all theorems about runs speak. |
| MutexGroups.Exclusion | pkg/linksharing/sharing/utils.go:71-92 | At most one call is inside a name's section although its mutex is deleted and made again. |
| MutexGroups.Independence | pkg/linksharing/sharing/utils.go:58-67 | Two calls have the same mutex just if they have the same name. |
| MutexGroups.WaitersCounted | pkg/linksharing/sharing/utils.go:71-92 | A name is present just if a call uses it, and its count is the number of calls registered on its current mutex. |
| MutexGroups.NeverPanics | pkg/linksharing/sharing/utils.go:78-91 | Neither the double-unlock panic nor the unlock of an unlocked mutex is reachable. |
| MutexGroups.NothingRemains | pkg/linksharing/sharing/utils.go:81-90 | When all calls are done both maps are empty and nothing is locked. |
| MutexGroups.NeverStuck | pkg/linksharing/sharing/utils.go:71-92 | While a call uses a name, some call of that name can take a step. |
| MutexGroups.MutexGroup.Init | pkg/linksharing/sharing/utils.go:58-67 | Makes the maps on first use and a mutex for a name that has none. |
| MutexGroups.MutexGroup.Register | pkg/linksharing/sharing/utils.go:71-76 | The registering section is the machine's Enter step. |
| MutexGroups.MutexGroup.Deregister | pkg/linksharing/sharing/utils.go:78-91 | The deregistering section is the machine's Leave step, and panics just when nobody is registered. |
| TxtRecords.ExpirationsIncrease | pkg/linksharing/sharing/txtrecords.go:80-142 | In any run the expirations stored for a host strictly increase, with or without failing queries between. |
| TxtRecords.OneQueryPerRecord | pkg/linksharing/sharing/txtrecords.go:122-142 | Two queries that find a record cached find different ones, the second newer: a cached record causes at most one query. |
| TxtRecords.RefreshQueries | pkg/linksharing/sharing/txtrecords.go:98-142 | In any run, whoever was served an expired record queries when it gets the host's lock, if and only if nothing or a record with that expiration is then cached. |
| TxtRecords.FetchIsSteps | pkg/linksharing/sharing/txtrecords.go:80-113 | A fetch ends at once on a fresh record, and enters an update for exactly the expired record it serves, or for none on a miss. |
| TxtRecords.ClearsOnlyItsOwn | pkg/linksharing/sharing/txtrecords.go:134-138 | A failing update removes the expired record with the very expiration it was started for, or nothing; never another one. |
| TxtRecords.StoresOverItsOwn | pkg/linksharing/sharing/txtrecords.go:122-142 | A successful update stores over the expired record it was started for, or over nothing, and what it stores is newer. |
| TxtRecords.FreshRecordsStay | pkg/linksharing/sharing/txtrecords.go:80-142 | A cached record changes or goes only after it has expired. |
| TxtRecords.UpdateIsSteps | pkg/linksharing/sharing/txtrecords.go:122-142 | A whole update is locking, checking, querying, storing or clearing, and unlocking, one after the other. |
| TxtRecords.TXTRecords.UpdateCache | pkg/linksharing/sharing/txtrecords.go:122-142 | Queries just if nothing is cached or the cached record has exactly the named expiration, which must not be zero; stores a success, clears on failure, and otherwise returns what is cached. |
| TxtRecords.TXTRecords.FetchAccessForHost | pkg/linksharing/sharing/txtrecords.go:80-113 | Serves what is cached, expired or not; asks for a refresh just if it has expired; updates at once on a miss. |
| LeaseLock.Exclusion | pkg/gcslock/gcslock.go:55-113 | With no claimed object judged after its stored expiration, and none made after a contender's look and then deleted by it, at every instant at most one mutex is between its creation of the object and its unlock's deletion, and its object exists. |
| LeaseLock.ExclusionInTime | pkg/gcslock/gcslock.go:55-113 | The same from a condition on clocks alone: whoever judges a claimed object does so no later than the expiration sent by the last creation or refresh that took effect. |
| LeaseLock.LeasesKeptInTime | pkg/gcslock/gcslock.go:188-239 | In every run that condition holds if and only if no claimed object is judged after its stored expiration, since what is stored is what was written last. |
| LeaseLock.RefreshWorks | pkg/gcslock/gcslock.go:199-236 | In runs as in Exclusion a holder all of whose replies arrived knows its object's metageneration: each refresh that is not lost raises it by one and sets the new expiration, and refreshing goes on just if the reply arrives. |
| LeaseLock.UnlockWorks | pkg/gcslock/gcslock.go:93-113 | And its unlock, unless the request is lost, removes its object, whatever others do in between. |
| LeaseLock.OnlyTheHolderDeletes | pkg/gcslock/gcslock.go:242-269 | The object of a claimed lock goes away only by its holder's unlock. |
| LeaseLock.ExclusionExact | pkg/gcslock/gcslock.go:55-113 | In a run with leases kept, every claimed object exists throughout if and only if no deletion takes effect on a claimed object made after the contender looked. |
| LeaseLock.EraseHarms | pkg/gcslock/gcslock.go:242-269 | A contender's deletion takes a claimed object away exactly when it takes effect on a claimed object made after the contender looked, with the metageneration it saw. |
| LeaseLock.RecreationBreaksExclusion | pkg/gcslock/gcslock.go:55-113 | A run with all leases kept in which two mutexes hold the lock. |
| LeaseLock.AttemptIsSteps | pkg/gcslock/gcslock.go:61-89 | One turn of the lock loop is its requests one after the other in the machine. |
| LeaseLock.Mutex.Lock | pkg/gcslock/gcslock.go:55-90 | Attempts until the first one that creates the object, or a canceled wait; the store is what the attempts made of it. |
| LeaseLock.Mutex.Attempt | pkg/gcslock/gcslock.go:61-89 | Locks just if its creation was confirmed and there was no object; the new object has metageneration 1 and the expiration sent. Otherwise it says whether to wait, as above. |
| LeaseLock.Mutex.ShouldWait | pkg/gcslock/gcslock.go:242-260 | Sends the deletion, by the metageneration it saw, just if the stored expiration is smaller than `now`, and touches nothing otherwise; does not wait just if the object is missing or the deletion was confirmed. |
| LeaseLock.Mutex.Refresh | pkg/gcslock/gcslock.go:188-239 | Patches by the last known metageneration and learns the new one, which a success leaves on the object with the new expiration; a failure ends refreshing. |
| LeaseLock.Mutex.Unlock | pkg/gcslock/gcslock.go:93-113 | Deletes by the last known metageneration; a failed precondition counts as success. |
| LeaseLock.Bucket.Upload | pkg/gcslock/gcsops/gcsops.go:246-271 | Creates, with metageneration 1, only if nothing exists, whether or not the reply arrives. |
| LeaseLock.Bucket.Delete | pkg/gcslock/gcsops/gcsops.go:98-125 | Deletes only the object with the metageneration; tells missing from mismatched. |
| LeaseLock.Bucket.Stat | pkg/gcslock/gcsops/gcsops.go:217-243 | Reports the object, its absence, or a failure, and changes nothing. |
| LeaseLock.Bucket.Patch | pkg/gcslock/gcslock.go:199-236 | Raises the metageneration by one and sets the expiration, if the metageneration is the expected one. |
| Limiters.CountsAreExact | pkg/server/middleware/limiter.go:66-82 | A key's count is its number of requests in flight, and absent just if there are none. |
| Limiters.NeverTooManyServed | pkg/server/middleware/limiter.go:69-76 | At most `allowed` requests of a key are served at once. |
| Limiters.RejectedJustIfFull | pkg/server/middleware/limiter.go:69-76 | A request is rejected just if, when it checks, `allowed` others of its key are in flight. |
| Limiters.NeverUnderflows | pkg/server/middleware/limiter.go:77-82 | No count is decremented at zero. |
| Limiters.Limiter.Limit | pkg/server/middleware/limiter.go:55-84 | An uninterrupted request is served just if others leave room, and leaves the map as it was. |
| Limiters.Limiter.Decrement | pkg/server/middleware/limiter.go:77-82 | Lowers the count, with wrap-around, and drops the key at zero. |
| TxtRecordSets.OrderDoesNotMatter | pkg/linksharing/sharing/txtrecordset.go:50-56 | Lookup and TTL are the same for any two orders of the same records. |
| TxtRecordSets.SplitValueIsWhole | pkg/linksharing/sharing/txtrecordset.go:58-81 | A value split over numbered fields, added in any order among other records, is found whole when neither the plain field nor the next number is given. |
| TxtRecordSets.FindsLeast | pkg/linksharing/sharing/txtrecordset.go:50-69 | Of all values the records give a field under its own name, in whatever order, the least one is found. |
| TxtRecordSets.NumberedInjective | pkg/linksharing/sharing/txtrecordset.go:71-72 | Numbered names are distinct, which is why the unbounded search ends. |
| StringOrder.SortedUnique | pkg/linksharing/sharing/txtrecordset.go:52-56 | Sorting makes equal what is equal as a multiset. |
| TxtRecordSets.KeyOfExact | pkg/linksharing/sharing/txtrecordset.go:37-48 | A key is the field with capital letters made small, underscores made dashes, and nothing else changed. |
| TxtRecordSets.ParsedExact | pkg/linksharing/sharing/txtrecordset.go:37-48 | The first colon separates key and value; a text without one says nothing. |
| TxtRecordSets.MinTTLExact | pkg/linksharing/sharing/txtrecordset.go:29-40 | The TTL is the least of a day and the records' own. |
| StringOrder.AtMostExact | pkg/linksharing/sharing/txtrecordset.go:52-56 | Sorting is by the first character in which two values differ, a shorter value coming first. |
| TxtRecordSets.NumberedExact | pkg/linksharing/sharing/txtrecordset.go:71-72 | A numbered field is the field, a dash and the number in decimal without leading zeros. |
| TxtRecordSets.TXTRecordSet.Add | pkg/linksharing/sharing/txtrecordset.go:37-48 | Appends the value under the normalized key, ignores text without a colon, and lowers the TTL. |
| TxtRecordSets.TXTRecordSet.Finalize | pkg/linksharing/sharing/txtrecordset.go:52-56 | Sorts the values of every key and changes nothing else. |
| TxtRecordSets.TXTRecordSet.Lookup | pkg/linksharing/sharing/txtrecordset.go:66-81 | The field's first value, or the first values of the numbered fields from 1 up to the first gap; it always ends. |
| TxtRecordSets.ResponseToTXTRecordSet | pkg/linksharing/sharing/dns.go:45-59 | The set of a response holds, sorted, what its records say of each key, and their least TTL. |
| Text.ValueOfDecimal | pkg/linksharing/sharing/txtrecordset.go:72 | Reading a formatted number gives it back. |
| Text.TrimExact | pkg/linksharing/sharing/present.go:457-465 | Trimming takes spaces, tabs and line ends off both ends and nothing else. |
| Text.ParseIntExact | pkg/linksharing/sharing/present.go:472-498 | Digits, after an optional sign, are read as their value if it fits 64 bits. |
| RangePrediction.PredictRange | pkg/linksharing/sharing/present.go:448-504 | The loop decides by the first element that is not blank, with its errors. |
| RangePrediction.HeaderPredicts | pkg/linksharing/sharing/present.go:448-504 | For a well-formed range, padded and among others, the prediction is its offset and length, and fails just if a number does not fit 63 bits. |
| RangePrediction.PredictionExact | pkg/linksharing/sharing/present.go:509-529 | For every satisfiable range the predicted interval is that of section 2.1 of RFC 7233 if and only if the range is predictable. |
| RangePrediction.ReuseExact | pkg/linksharing/objectranger/ranger.go:47-53 | The opened download serves the client's interval in exactly the predictable cases, and in these no other interval; none is served if no download was opened. |
| RangePrediction.NoHeaderIsWhole | pkg/linksharing/sharing/present.go:448-451 | Without a header nothing is predicted, the whole object is opened, and only it is served. |
| RangePrediction.NothingWraps | pkg/linksharing/sharing/present.go:509-529 | With a size, offset and length below 2^62 the absolute range is the object's bytes from the offset on, as many as asked for and there are; a suffix gives its last bytes. |
| RangePrediction.HeaderRefused | pkg/linksharing/sharing/present.go:452-506 | Another unit is invalid, and a list of blanks cannot be predicted. |
| RangePrediction.RangeRefused | pkg/linksharing/sharing/present.go:461-498 | A first range without a dash, or one that ends before it starts, is invalid. |
| RangePrediction.EmptySuffixIsWhole | pkg/linksharing/sharing/present.go:469-484 | A suffix of length zero, which selects nothing, is predicted as the whole object. |
| RangePrediction.OptionsToRange | pkg/linksharing/sharing/present.go:509-529 | Every branch in 64-bit arithmetic, overflow included. |
| Backoff.DelaysExact | pkg/backoff/backoff.go:35-61 | The k-th delay is min(Max, Min·2^(k−1)) for all k if and only if Max < 2^62. |
| Backoff.DefaultsFilled | pkg/backoff/backoff.go:22-34 | After the first wait, bounds left zero make no difference from one second and five milliseconds. |
| Backoff.DefaultDelays | pkg/backoff/backoff.go:22-61 | With no configuration the k-th delay is min(1 s, 5 ms·2^(k−1)). |
| Powers.GrownIsPower | pkg/backoff/backoff.go:39-43 | Doubling k times multiplies by 2^k. |
| Backoff.ReachesExact | pkg/backoff/backoff.go:35-61 | Up to the maximum the delays are these if and only if the last doubling fits 63 bits. |
| Backoff.SmallReaches | pkg/backoff/backoff.go:35-61 | Which Max ≤ 2^62 guarantees. |
| Backoff.MaxedExactly | pkg/backoff/backoff.go:64-67 | After the ideal number of waits Maxed holds if and only if the maximum is reached without overflow. |
| Backoff.NotMaxedBefore | pkg/backoff/backoff.go:64-67 | Before that many waits it never holds, overflow or not. |
| Backoff.MaxedEarly | pkg/backoff/backoff.go:64-67 | Waits that are ever maxed out are so within the first 65, since by then doubling has run through all 64 bits and starts over. |
| Backoff.NeverMaxed | pkg/backoff/backoff.go:64-67 | Concrete bounds with which Maxed never holds. |
| Backoff.TxnWithBackoff | pkg/auth/badgerauth/db.go:260-277 | For any configuration: the loop stops at the first attempt that does not conflict, is maxed out, or whose wait is canceled, and its result tells which; it is called only where some attempt is of that kind, without which the original never returns. |
| Backoff.RetriesBounded | pkg/auth/badgerauth/db.go:260-277 | Starting from no delay, every transaction is given up within one attempt more than the ideal number of waits if and only if the maximum is reached without overflow; one that always conflicts is not given up before. |
| Backoff.RetriesEnd | pkg/auth/badgerauth/db.go:260-277 | Starting from no delay, every transaction is given up some time if and only if one of the first 65 waits is maxed out, overflow or not. |
| Backoff.RetriesForever | pkg/auth/badgerauth/db.go:260-277 | With the longest bounds a transaction that always conflicts is never given up. |
| Backoff.ExponentialBackoff.Wait | pkg/backoff/backoff.go:35-61 | Doubles the delay with wrap-around and cuts it at Max, also when the context is done. |
| Backoff.ExponentialBackoff.Maxed | pkg/backoff/backoff.go:64-67 | Whether the delay is Max, after filling in defaults. |
| BodyCaches.ReplaysTheStream | pkg/server/middleware/body_cache.go:31-68 | In any sequence of reads and seeks: a seek to p from the start, while nothing beyond the cache was delivered, moves the index to p, and all that is read from then on is the original content from p on (from the end of the cache if p lies beyond it). |
| BodyCaches.ReadsTheStream | pkg/server/middleware/body_cache.go:31-45 | Without a seek the reads deliver the content from its beginning, across the end of the cache. |
| BodyCaches.SeekExact | pkg/server/middleware/body_cache.go:48-68 | Where a seek goes: the offset from the start, or the index plus the offset; it is refused just for a consumed stream, a negative or wrapped position, or another whence. |
| BodyCaches.AlignedExactly | pkg/server/middleware/body_cache.go:48-68 | Reading continues where the index points if and only if the last seek went no further than the cache. |
| BodyCaches.SeekRefusedExactly | pkg/server/middleware/body_cache.go:48-51 | Seeking is refused exactly once bytes beyond the cache have been delivered. |
| BodyCaches.BodyCache.Read | pkg/server/middleware/body_cache.go:31-45 | Delivers the bytes at the source, whether from the cache, the stream or both, and leaves the rest of the buffer. |
| BodyCaches.BodyCache.Seek | pkg/server/middleware/body_cache.go:48-68 | From the start it returns the offset itself, from the current index the sum, and moves the index there; a refusal changes nothing. |
| BodyCaches.NewBodyCache | pkg/server/middleware/body_cache.go:22-28 | The cache is exactly the first `bufferSize` bytes, or all there are, unless reading fails. |

## Left out

- Convergence.Converges: assumes each key is put once and nothing is deleted or expired; with updates it promises equal clocks and logs only, since an update made after an entry was pulled is never replicated.
- Holes.NothingLiveIsSkipped: assumes that relays agree with the origin's live log; the other direction is the counterexample RelayedHoles.RelayedPullsSkip, not an if-and-only-if over runs.
- Holes.PullsCloseTheGap: assumes steady records over the whole run; exact for one reply are Holes.ApplyMoves and Refusals.BatchExact.
- LeaseLock.ExclusionInTime: assumes that judgements of a claimed object come no later than its written expiration; how often a holder must refresh for that, given how far clocks differ, is not modelled.
- LeaseLock.Mutex.Lock: takes what each attempt meets as a sequence, and nothing else uses the bucket in between; the interleavings are in the state machine.
- BodyCaches.BodyCache.Read: a reading index of 2^63 or more, reachable only by seeking beyond the cache by almost that much, does not wrap around.
- TxtRecordSets.TXTRecordSet.Add: lower-cases ASCII letters only, since record text arrives with other bytes escaped.
- Backoff.TxnWithBackoff: a retry loop that never ends has no counterpart; whether there is one is Backoff.RetriesEnd.
- Nodes.Peer.Sync: within one sync the peer's state stands still; that it may change between two scans is in the Cluster steps.
- Padding of node ids shorter than 32 bytes and of malformed ids in messages; ids here are 32 bytes.
- The storage engine itself: conflict detection, oversized transactions, value log, garbage collection. Sorting, strings and number parsing are modelled as far as used.
- The administrator's service around updates and deletions: parsing of keys, and the refusal of an empty reason.
- Node.Get's broadcast to peers, Peek, backups, peer status, TLS, dialing and servers.
- Opening the database: the node id check of the first start.
- Parsing of access grants and DNS messages: a query of the TXT cache yields a record or fails.
- Listing, downloading and error bodies of the cloud storage client.
- Closing a body cache, panicking handlers in the limiter, and the other middleware.
