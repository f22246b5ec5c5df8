# EtcdLite: a verified model of the store, the leases and the watches

EtcdLite keeps keys and values in memory and answers a part of the etcd v3 API. Three objects carry its
state and call each other: `KVStore` (records, revisions, transactions, ranges), `LeaseManager` (which keys
go when a lease runs out) and `WatchManager` (who hears of which change). `EtcdLiteServer` wires them: a put
or a collecting delete calls the watch manager while it holds the store's mutex, every write keeps the lease
index up to date, and the lease manager deletes an expired lease's keys by calling back into the store.

This project models those objects and proves what the whole is meant to guarantee, over every input, every
run of calls, and, for the lease index, revocation, registration and the mutexes, every interleaving of threads.

## How it is laid out

| file | contents |
|---|---|
| `Collections.dfy` | sequences and maps in general |
| `Bytes.dfy` | byte strings in `std::string` order, key ranges, prefix ends, the successor of a key |
| `Engine.dfy` | store and lease table as a value; what one call and a run of calls do to it |
| `History.dfy` | the store as a function of the log of writes and deletions; revisions; no ABA |
| `Ranges.dfy` | range reads independent of hash order, paging, what Delete returns, size accounting |
| `Transactions.dfy` | guards, responses, what a range inside a transaction sees |
| `Interleaving.dfy` | calls as small steps with lease operations between them; the lease index invariant |
| `Linearization.dfy` | such interleavings against runs of whole calls |
| `Tearing.dfy` | exactly which calls lease steps can tear, and the interleavings that are therefore serializable |
| `Observations.dfy` | answers and reports of interleaved calls are those of the run of whole calls |
| `LeaseIndex.dfy` | Revoke and the expiry sweep, how long a lease lives, where the index stops being exact |
| `Disturbed.dfy` | Revoke and the sweep with other calls between their steps: what they miss and what they take |
| `Reading.dfy` | Revoke with the key set read in the middle of another call |
| `Watch.dfy` | a watcher's stream: exactly once, in order, and what its replay adds up to |
| `Registration.dfy` | registration and notification step by step: a watcher's stream and its revisions |
| `Streams.dfy` | what every response is: the shape of a stream, created, canceled and live responses, previous records |
| `Clients.dfy` | what a client's copy of its range holds, right or wrong, after any steps and calls |
| `Locks.dfy` | the mutexes every call takes, for any number of threads |
| `Iteration.dfy` | loop lemmas for the classes: sorting, walking hash maps, notifying watcher after watcher |
| `Components.dfy` | the classes `LeaseManager`, `KVStore`, `WatchManager`, updated in place |
| `Agreement.dfy` | the two copies of the put and delete code run side by side |
| `Server.dfy` | the wired server with the log of all it has done |

The classes are proved against the functions of `Engine` and `Watch` (`Step`, `NotifyAll`, `Opening`), and the
server's invariant says that its state is the one its history leads to. So every lemma about `Run`, `ActAll`
or `Expire` is a statement about the objects.

Hash maps and sets are walked by picking an arbitrary element (`:|`), so whatever is proved holds for every
iteration order. The clock is a parameter of Grant, KeepAlive and the sweep. A stream is the sequence of
responses written for one watch id. The thread that calls carries the record of the mutexes it took and gave
back (`Thread.locks`); every acquisition in `Components` must ascend the lock order, and each operation of the
server adds to the record exactly the program of one call of `Locks`, which is what the deadlock theorem is
about.

## What the code does that its documentation does not say

- A range end whose FIRST byte is zero means "no upper bound" (src/kv/kv_store.cpp:100-102); the header
  (src/kv/kv_store.h:72) and rpc.proto promise that only for the one-byte end `"\0"`. The prefix query of
  rpc.proto:422-423 therefore works exactly when the prefix, up to its last byte below 255, does not start
  with a zero byte: `Bytes.PrefixRangeExactly`.
- A compare on a missing key is false whatever it asks, NOT_EQUAL and VERSION 0 included
  (src/kv/kv_store.cpp:215-217): `Transactions.NotEqualIsNegationIffPresent`. `Compare.range_end` is ignored.
  CREATE, MOD and LEASE compares read `cmp.version()`; the model's field `version` is what that accessor
  returns.
- AttachKey's NOT_FOUND is ignored (src/kv/kv_store.cpp:58), so a record may name a lease that is not live.
  After one Put, Delete or Txn the index stays exact under all further grants if and only if no record names
  an id yet to be granted (`LeaseIndex.CallKeepsIndexExactIffGranted`). In every run a key is in a live lease's
  set if and only if its record names the lease and the lease was already granted when the key was last
  written (`LeaseIndex.IndexIsItsRun`). Over interleavings the index is exact if every put names granted leases
  (`Interleaving.ExactInEveryInterleaving`); a call can be torn by Grants if
  and only if two of its surviving puts name future ids, the first no larger than the second
  (`Tearing.TearableIff`).
- Txn, and a Delete that does not collect (the one lease expiry uses), report nothing to watchers:
  `Clients.KeyIsRightIff` says exactly which keys of a client's copy are right after any run of calls,
  `Watch.CallKeepsReplayIff` which single calls keep an exact copy exact.
- RegisterWatcher reads the revision, takes its snapshot and enters the watcher in the table in three separate
  steps (src/watch/watch_manager.cpp:67, 81, 84-85), and a Delete reports its keys one watch-mutex section at a
  time. So a client can be wrong about some keys of one Delete and right about others
  (`Clients.HalfSeenDelete`), and can hear of a change under the revision of its own created response
  (`Registration.SameRevisionHeard`). `Clients.KeyIsRightIff` and `Registration.StrictlyLaterIff` say exactly when.
  `start_revision` only switches the snapshot on.
- Revoke and the sweep do not look again after reading the key set or listing the expired leases. A Put under
  the lease that comes late outlives it (`Disturbed.LateWriteEscapesRevoke`); worse, a key that is put under
  another lease, or none, after the key set was read is deleted all the same, so a fresh write is lost
  (`Disturbed.RevokeLosesAFreshWrite`); a KeepAlive after the listing is in vain
  (`Disturbed.LateRenewalIsIgnored`). The key set may also be read in the middle of a call: a key that a Put
  moves from the lease to the same lease is in no key set between DetachKey and AttachKey, so it can be missed
  although it was leased before and after (`Reading.MissedInMidPut`). The exact conditions, with the set read
  anywhere, are `Reading.LeftWheneverRead` and `Reading.TakenWheneverRead`; for the sweep,
  `Disturbed.SweepTakesTheListed`.

## Model

| member | source | states |
|---|---|---|
| `Bytes.LessTransitive` | src/kv/kv_store.cpp:94-103 | the byte-string comparison ranges and sorting rest on is transitive |
| `Bytes.LessTrichotomy` | src/kv/kv_store.cpp:94-103 | of `<`, `==`, `>` exactly one holds, so `>=` is "not less" |
| `Bytes.LessByFirstDifference` | src/kv/kv_store.cpp:117-119 | the recursive order is the lexicographic order of unsigned bytes: first difference decides, a proper prefix comes first |
| `Bytes.RangeByPositions` | src/kv/kv_store.cpp:92-104 | nothing below the start is in range; from it on, an empty end selects the start alone, an end whose first byte is zero every key, any other end exactly the keys below it, read off prefixes and first differences |
| `Bytes.RangeSplits` | src/kv/kv_store.cpp:92-104 | [start, end), bounded or not, is the disjoint union of [start, mid) and [mid, end) for every mid between them that can stand as an end |
| `Bytes.SuccessorRangeExactly` | src/kv/kv_store.cpp:100-103 | from a key to key·0 there is the key alone if and only if the key is not empty and does not start with a zero byte |
| `Bytes.ZeroByteSuccessor` | src/kv/kv_store.cpp:92-104 | k followed by a zero byte is the immediate successor of k: above k is the same as at or above k·0 |
| `Bytes.ResumeAfter` | src/kv/kv_store.cpp:92-104 | asking again from lastKey·0 selects exactly the keys of the range above lastKey |
| `Bytes.AllOnesBelow` | third_party/protos/etcd/api/etcdserverpb/rpc.proto:420-425 | a string of 255s, which has no "plus one", is a lower bound of exactly its own extensions |
| `Bytes.PrefixRange` | third_party/protos/etcd/api/etcdserverpb/rpc.proto:420-423 | with the end "prefix plus one", trailing 255s dropped, a key of any length is in range iff it has the prefix, if the kept part is empty or starts above zero |
| `Bytes.PrefixRangeExactly` | src/kv/kv_store.cpp:100-103 | that query selects exactly the prefixed keys if and only if the kept part is empty or does not start with a zero byte |
| `Ranges.PrefixSelects` | README.md:20-21 | on any store such a range, delete or watch selects exactly the stored keys with the prefix |
| `Ranges.KeysSplit` | src/kv/kv_store.cpp:92-104 | so do the stored keys a range, delete or watch selects |
| `Ranges.RangeJoins` | src/kv/kv_store.cpp:106-141 | a Range over [start, end) is the Range over [start, mid) followed by the Range over [mid, end), in every mode |
| `History.StoreIsItsLog` | src/kv/kv_store.cpp:40-63 | in every reachable state a key is present iff it was put since last cleared; version is the number of those puts, create revision that of the first, mod revision, value and lease those of the last; the mirror fields and the map key agree with kv |
| `History.LogOneOp` | src/kv/kv_store.cpp:292-364 | one operation of a transaction keeps store and log in that relation |
| `History.RevisionCountsWrites` | src/kv/kv_store.cpp:31 | over any run the revision grows by the number of Put, Delete and Txn calls, those Revoke makes included |
| `History.RunWellFormed` | src/kv/kv_store.cpp:40-50 | every run keeps: map key is kv.key, mirror fields equal kv's, version at least 1, create revision at most mod revision at most the current one |
| `History.SameRecordIffUntouched` | src/kv/kv_store.cpp:45-50 | a key's record is the same at both ends of a run iff nothing in between wrote or cleared it, or it is absent at both |
| `History.NoABA` | src/kv/kv_store.cpp:45-47 | a key present with the same mod revision at two points of any run was neither written nor deleted in between and has the identical record, transactions that put it repeatedly included |
| `History.VersionWithinRevisions` | src/kv/kv_store.cpp:302-311 | version plus the revisions skipped between live puts is mod - create + 1 plus the puts that repeat a revision |
| `History.VersionBoundIff` | src/kv/kv_store.cpp:45-50 | version <= mod - create + 1 if and only if the puts that repeat a revision do not outnumber the revisions skipped |
| `History.VersionBound` | src/kv/kv_store.cpp:45-50 | in particular on every run in which no Txn leaves two live puts of the key of its own |
| `History.TxnRepeatsARevision` | src/kv/kv_store.cpp:306-308 | one Txn putting a key twice leaves version 2 at a single revision |
| `Ranges.SortedUnique` | src/kv/kv_store.cpp:116-119 | a set of keys has one ascending listing, so neither hash order nor the sort's choices can show |
| `Ranges.RangeIsSortedFilter` | src/kv/kv_store.cpp:106-119 | an unlimited range is exactly the records in range, in strictly ascending key order |
| `Ranges.RangeModes` | src/kv/kv_store.cpp:121-140 | a positive limit keeps the first entries and only as many, any other keeps all; a keys-only entry has its key and nothing else set, a count-only entry nothing, field by field, and there are as many |
| `Ranges.PagesMakeTheRange` | src/kv/kv_store.cpp:92-141 | reading page after page from lastKey·0 ends and the pages concatenate to the unlimited range, each key once |
| `Ranges.NextPage` | src/kv/kv_store.cpp:121-126 | each page leaves exactly the rest of the listing, and strictly fewer keys |
| `Ranges.DeleteReturnsTheRange` | src/kv/kv_store.cpp:174-204 | what a collecting Delete returns is duplicate-free, exactly the records in range, and none of them is left |
| `Ranges.DeletePartitions` | src/services/kv_service_impl.cpp:88-95 | returned and remaining records rebuild the old store, and the reported count is the drop in size |
| `Ranges.SizeIsCreatedMinusRemoved` | src/kv/kv_store.cpp:332-363 | over any run the store's size is creating puts minus keys removed |
| `Transactions.NotEqualIsNegationIffPresent` | src/kv/kv_store.cpp:214-217 | EQUAL and NOT_EQUAL are each other's negation iff the key is present; a missing key fails every transaction that compares it |
| `Transactions.CompareMeaning` | src/kv/kv_store.cpp:214-269 | on a present key each of the four results of VALUE, VERSION, CREATE, MOD and LEASE means the comparison it names, of bytes or of numbers; any other target or result fails |
| `Transactions.GuardReadsTheLog` | src/kv/kv_store.cpp:224-254 | after any run a guard holds iff the log says so: VERSION of the number of puts since the key was last cleared, MOD and CREATE of the revisions of the last and the first, LEASE and VALUE of what the last wrote |
| `Transactions.TxnReadsTheLog` | src/kv/kv_store.cpp:278-289 | after any run a Txn takes its success branch iff the log bears out every compare; guarded by VERSION EQUAL v > 0, iff the key was put exactly v times since it was last cleared |
| `Transactions.DeletedIsTheDrop` | src/kv/kv_store.cpp:357-362 | the count of a delete inside a Txn is the drop in the store's size over it, with or without previous records |
| `Transactions.DeletedAddsUp` | src/kv/kv_store.cpp:332-363 | over a whole Txn the counts add up to the keys it removed |
| `Transactions.RangeCounts` | src/kv/kv_store.cpp:370-375 | the count of a range inside a Txn is the number of keys in range, up to its limit, in every mode, and "more" is never set |
| `Transactions.RangeSeesEarlierPut` | src/kv/kv_store.cpp:292-376 | a range inside a transaction returns a key put by an earlier operation, with its value, lease and the transaction's revision, unless an operation in between wrote or cleared it |
| `Agreement.PutEitherWay` | src/kv/kv_store.cpp:28-80 | run on two stores in the same state, Put and the Txn of one put, each by its own copy of the code, leave the same store, lease index and revision; both return the previous record, for a new key Put none and the Txn a blank one |
| `Agreement.DeleteEitherWay` | src/kv/kv_store.cpp:332-363 | Delete and the Txn of one delete likewise, with the same previous records, each once; the Txn's count is the drop in size, asked for records or not |
| `Interleaving.BeginKeeps` | src/kv/kv_store.cpp:28-63 | when a Put, Delete or Txn takes the store's mutex, its pending steps keep lease index and records in agreement |
| `Interleaving.NextKeeps` | src/kv/kv_store.cpp:52-63 | so does each single detach, attach, store and erase step |
| `Interleaving.BetweenKeeps` | src/lease/lease_manager.cpp:31-79 | so does a Grant, KeepAlive or lease erasure of another thread between any two of them |
| `Interleaving.SoundInEveryInterleaving` | src/lease/lease_manager.cpp:46-64 | in every interleaving, whenever the store's mutex is free, each key in a live lease's key set is in the store under exactly that lease, so key sets are disjoint |
| `Interleaving.ExactInEveryInterleaving` | src/kv/kv_store.cpp:52-63 | if also every put names no lease or one already granted, each live lease's key set is exactly the keys whose record names it |
| `Linearization.OpsMicrosAreOps` | src/kv/kv_store.cpp:292-364 | undisturbed, a call's detach, attach, store and erase steps, keys deleted in any hash order, add up to the call |
| `Linearization.EraseOne` | src/kv/kv_store.cpp:186-191 | detaching a key from the lease its record names and erasing the record removes it from store and index alike |
| `Linearization.Commutes` | src/lease/lease_manager.cpp:101-121 | a Grant, KeepAlive or lease erasure commutes with the pending steps of a call that attaches only granted ids |
| `Linearization.Linearizable` | src/kv/kv_store.cpp:52-63 | every interleaving in which puts name granted leases ends in the state of a run of whole calls, in mutex order |
| `Linearization.StoreLinearizable` | src/kv/kv_store.cpp:28-63 | in every interleaving, torn or not, records, revision and next lease id are those of the run of whole calls |
| `Observations.CallSeesTheRun` | src/kv/kv_store.cpp:271-387 | in every interleaving each call chooses the branch, gives the responses and reports the changes it would in that run |
| `Tearing.WeaveMember` | src/kv/kv_store.cpp:313-323 | whatever comes between its operations, a key is in a live lease's set iff its last touch put it there after the Grant, or none touched it and it was there |
| `Tearing.Normalise` | src/kv/kv_store.cpp:186-191 | every interleaving between single mutex sections comes to the same as one between whole operations |
| `Tearing.TearableIff` | src/kv/kv_store.cpp:314-323 | some interleaving of a call with lease steps matches no place of the whole call among them iff two surviving puts name future ids a, then b, with a <= b |
| `Tearing.SerializableUnlessTorn` | src/kv/kv_store.cpp:271-377 | every interleaving without such a call ends in the state of a run of whole calls, writes and lease steps each in their order |
| `Linearization.TxnTornByGrant` | src/kv/kv_store.cpp:314-323 | without that condition a Grant between two puts of one Txn leaves one key attached and the other not |
| `Linearization.WholeTxnIsNotTorn` | src/kv/kv_store.cpp:314-323 | which neither order of the two as whole calls can do |
| `Linearization.RunKeepsIndex` | src/kv/kv_store.cpp:186-191 | runs of whole calls keep the index sound, and exact when puts name granted leases |
| `LeaseIndex.RevokeIsExpire` | src/lease/lease_manager.cpp:46-64 | in whatever order the keys come, and though each callback shrinks that very set, an undisturbed revocation removes exactly the lease and its keys, one revision each |
| `LeaseIndex.RevokeRemovesItsRecords` | src/lease/lease_manager.cpp:54-63 | with an exact index: exactly the records naming the lease are gone, every other record and lease unchanged, revision grown by their number |
| `LeaseIndex.NeverReissued` | src/lease/lease_manager.cpp:34 | an id once issued and revoked is never live again in any run |
| `LeaseIndex.SweepIsExpire` | src/lease/lease_manager.cpp:189-192 | revoking lease after lease, in any order of leases and keys, expires them all at once |
| `LeaseIndex.SweepRemovesTheExpired` | src/lease/lease_manager.cpp:175-193 | after a sweep no lease has expireTime <= now, exactly the records naming expired leases are gone, every other lease keeps key set and expiry, revision grown by the number of records removed |
| `LeaseIndex.ExpiryIsLastRenewalPlusTtl` | src/lease/lease_manager.cpp:66-79 | in every run a live lease's expiry is its last Grant or KeepAlive time plus ttl, and a sweep takes it exactly when it comes no earlier |
| `LeaseIndex.TtlIsGranted` | src/lease/lease_manager.cpp:37-41 | in every run a live lease carries its own id and the ttl of the Grant that issued it |
| `LeaseIndex.RenewedLeaseSurvives` | src/lease/lease_manager.cpp:175-193 | over any number of sweeps and revocations, each Revoke whole: a lease renewed before each sweep, or listing of an interrupted one, could catch it stays live, and its keys vanish only by explicit writes |
| `LeaseIndex.PutKeepsIndexExactIffGranted` | src/kv/kv_store.cpp:53-58 | after a Put the index is exact, now and under all further grants, iff the id it names is not one still to be issued |
| `LeaseIndex.CallKeepsIndexExactIffGranted` | src/kv/kv_store.cpp:313-323 | the same for every Put, Delete and Txn: iff no record it leaves names an id still to be issued |
| `LeaseIndex.LiveStayExact` | src/kv/kv_store.cpp:52-63 | whatever a call writes, the key sets of existing leases stay exact |
| `LeaseIndex.IndexIsItsRun` | src/kv/kv_store.cpp:52-63 | in every run, whatever ids puts name, a key is in a live lease's set iff its record names the lease and the lease was granted when the key was last written |
| `Disturbed.OnlyLateWritesEscapeRevoke` | src/lease/lease_manager.cpp:48-62 | with the key set read between calls: once every key read has been deleted, a record names the lease iff it was put under it since and neither overwritten nor cleared after |
| `Disturbed.WhatRevokeLeaves` | src/lease/lease_manager.cpp:48-62 | the same for one Revoke as steps among the calls of other threads (read in mid-call: Reading.LeftWheneverRead) |
| `Disturbed.WhatRevokeTakes` | src/lease/lease_manager.cpp:54-59 | there a callback removes its key only, and a record not naming the lease iff the key was put elsewhere since the reading and that put still stands (read in mid-call: Reading.TakenWheneverRead) |
| `Reading.ReadAsAtBegin` | src/lease/lease_manager.cpp:123-132 | wherever the key sets are read, a key no call has written or cleared since the call under way began is in those it was in then |
| `Reading.LeftWheneverRead` | src/lease/lease_manager.cpp:48-62 | between single mutex sections, the key set read anywhere: once every key read has been deleted, a record names the lease iff it was put under it since the call under way at the reading began, and that put stands |
| `Reading.TakenWheneverRead` | src/lease/lease_manager.cpp:54-59 | there a callback removes its key only, and a record not naming the lease iff the key was put elsewhere since that call began and that put stands |
| `Reading.MissedInMidPut` | src/kv/kv_store.cpp:53-58 | in every exact state a Put of a leased key under the same lease passes a moment at which the key set lacks it |
| `Disturbed.LateWriteEscapesRevoke` | src/lease/lease_manager.cpp:61-62 | in every state a Put under the lease between the last callback and the erasure outlives the lease |
| `Disturbed.RevokeLosesAFreshWrite` | src/lease/lease_manager.cpp:54-59 | in every state a key of the lease that is put under another lease, or none, after the key set was read is deleted with that write |
| `Disturbed.SweepTakesTheListed` | src/lease/lease_manager.cpp:175-193 | whatever comes between its steps, of the leases live at the listing a sweep takes exactly those expired then; the others go only if another thread erases them |
| `Disturbed.LateRenewalIsIgnored` | src/lease/lease_manager.cpp:180-192 | so a KeepAlive after the listing, however far it pushes the expiry, does not save the lease |
| `Disturbed.SparedLeaseKeepsItsKeys` | src/lease/lease_manager.cpp:46-64 | the keys of a lease not to be revoked vanish only by writes of other threads or by a callback whose key set was read before |
| `Disturbed.RenewedLeaseKeepsItsKeys` | src/lease/lease_manager.cpp:175-193 | a lease with time left at the listing keeps its keys through the whole sweep, callback by callback, unless other threads write or clear them |
| `Watch.LiveStream` | src/watch/watch_manager.cpp:113-169 | while registered, a watcher's stream grows by exactly the projection of the reported changes onto its range |
| `Watch.ExactlyOnce` | src/watch/watch_manager.cpp:118-141 | there is one response for each reported change in the watcher's range, each once, in the order reported |
| `Watch.StreamTells` | src/watch/watch_manager.cpp:126-138 | after any run each live response tells of one call, at the revision it made: a PUT has the record the call left and, if asked for, the record it replaced, or none; a DELETE the record it removed |
| `Watch.PrevIsWhatTheClientHeld` | src/watch/watch_manager.cpp:136-138 | after a snapshot and reporting calls, a PUT's previous record is what the client's own copy held for the key just before it |
| `Watch.SilentAfterCancel` | src/watch/watch_manager.cpp:90-111 | after cancellation nothing more is written for that id, ever |
| `Watch.WatcherLife` | src/watch/watch_manager.cpp:46-111 | with registration as one step: created response and snapshot, each change in range once and in order, canceled response, nothing (what those responses are: Streams; in three steps: Registration.LifeInSteps) |
| `Watch.LiveStreamRevisions` | src/server.cpp:32-39 | with registration as one step: header revisions never decrease and all exceed the created response's; a PUT's equals its mod revision, a DELETE's exceeds it (in three steps: Registration.StrictlyLaterIff) |
| `Watch.ReplaySnapshot` | src/watch/watch_manager.cpp:181-207 | the snapshot replayed from nothing is the store restricted to the range |
| `Watch.LoudStep` | src/kv/kv_store.cpp:65-72 | a reporting call brings a client's copy of each key it reports in line and changes no other, on either side |
| `Watch.ReplayAcrossGap` | src/watch/watch_manager.cpp:79-85 | with whole calls, silent ones included, before and after the entry: a key of the client's copy is right iff nothing wrote or cleared it since the last call that reported it (or the snapshot), or it was absent then and is now (step by step: Clients.KeyIsRightIff) |
| `Watch.RunReplays` | src/watch/watch_manager.cpp:113-169 | after any run, silent calls included, the client remembers of each key what the store had right after the last call that reported it |
| `Watch.ReplayIsStore` | src/watch/watch_manager.cpp:181-207 | in particular, with no gap and reporting calls only, snapshot and live events replay to exactly the store restricted to the range |
| `Watch.WatcherRebuildsTheStore` | src/watch/watch_manager.cpp:181-207 | that case for the whole server from any reachable state, with registration as one step (all cases, in three steps: Clients.ClientIsRightIff) |
| `Watch.CallKeepsReplayIff` | src/kv/kv_store.cpp:194-199 | a single call keeps an exact client exact iff it reports, or changes no key in the client's range |
| `Registration.FirstInFirstOut` | src/kv/kv_store.cpp:194-199 | changes are reported in the order made and none is lost, whoever registers or leaves in between |
| `Registration.ReachableIsSane` | src/kv/kv_store.cpp:65-72 | in every reachable state what is still to be reported is true of the store and dated with its revision |
| `Registration.StreamInSteps` | src/watch/watch_manager.cpp:62-85 | whatever comes between the steps of its registration, a stream is created response, snapshot and each report in range made after the watcher entered the table |
| `Registration.LifeInSteps` | src/watch/watch_manager.cpp:46-111 | then the canceled response and nothing more |
| `Clients.KeyIsRightIff` | src/watch/watch_manager.cpp:79-85 | whatever comes between the steps and whatever is called afterwards, Txn and lease expiry included: a key of the client's copy is right iff nothing wrote or cleared it since the state the client knows it from, or it was absent there and is now |
| `Clients.LoudKeyIsRightIff` | src/kv/kv_store.cpp:194-199 | when only reporting calls follow the entry: iff its record is the snapshot's or a change to it was reported after the entry |
| `Clients.SameAsListedIff` | src/watch/watch_manager.cpp:79-85 | a record is the snapshot's iff no call begun since wrote or cleared the key, or it was absent then and is now |
| `Clients.ClientIsRightIff` | src/watch/watch_manager.cpp:79-85 | the client holds exactly its part of the store iff that is so of every key in range |
| `Clients.HalfSeenDelete` | src/kv/kv_store.cpp:195-199 | a watcher that enters after a Delete has reported its first keys is wrong about exactly those: a Delete can be seen halfway |
| `Registration.HeardInOrder` | src/watch/watch_manager.cpp:67-69 | header revisions never decrease and are never below the one in the created response; PUTs and DELETEs are dated as above |
| `Registration.StrictlyLaterIff` | src/watch/watch_manager.cpp:67-69 | they are all above it iff a call began between the created response and the entry, or nothing in range was still to be reported at the entry |
| `Registration.AfterSnapshotStrictlyLater` | src/watch/watch_manager.cpp:79-85 | a watcher that asked for a snapshot always hears strictly later revisions |
| `Registration.SameRevisionHeard` | src/watch/watch_manager.cpp:67-69 | one that did not, and enters while a change in its range is still to be reported, hears of it under its created response's revision |
| `Streams.RegisterInSteps` | src/watch/watch_manager.cpp:62-85 | a registration as one action is where its steps lead undisturbed: created response, snapshot iff a positive start revision is asked for, entry |
| `Streams.ActionsInSteps` | src/server.cpp:32-39 | every history of whole actions is a run of steps with the same calls, store and streams |
| `Streams.StreamsAreShaped` | src/watch/watch_manager.cpp:62-111 | in every reachable state every response carries its watcher's id; the first is created and no other; one is canceled iff it is the last and the watcher is gone; those two carry no events, every other response one |
| `Streams.ServerStreamsAreShaped` | src/watch/watch_manager.cpp:90-111 | so on the server, where gone means not in the table |
| `Streams.CreatedCountsWrites` | src/watch/watch_manager.cpp:67-80 | the created response carries one plus the number of Puts, Deletes and Txns begun by then; without a positive start revision nothing else is sent before the entry |
| `Streams.CreatedOnServer` | src/watch/watch_manager.cpp:62-82 | so on the server |
| `Streams.CanceledOnServer` | src/watch/watch_manager.cpp:98-108 | the last response of a watcher just canceled is canceled |
| `Streams.SnapshotIsDated` | src/watch/watch_manager.cpp:193-206 | snapshot response i is the i-th key in range, with its record, no previous record, and the revision of the last put to it |
| `Streams.HeardTells` | src/watch/watch_manager.cpp:126-165 | wherever the watcher entered among the reports of a call, each live response tells of one call of the run since the start, with the previous record iff the registration asked for it |
| `Locks.EveryCallIsDisciplined` | src/lease/lease_manager.cpp:46-64 | every call, Revokes that find the lease gone included, takes mutexes only in ascending order, store before lease table and before watch table before stream, and gives all back |
| `Locks.RecordIsDisciplined` | src/kv/kv_store.cpp:30 | whatever a thread running the classes' methods has locked and unlocked, once it holds nothing, is such a program |
| `Locks.NeverReacquires` | src/kv/kv_store.cpp:30 | with any number of threads running such programs, in every reachable state none waits for a mutex it holds or gives back one it does not hold |
| `Locks.NoDeadlock` | src/lease/lease_manager.cpp:180-192 | with any number of threads running such programs, in every reachable state, while any thread has something to do, some thread can proceed |
| `Locks.ReleasingFirstMatters` | src/lease/lease_manager.cpp:46-64 | a Revoke that kept the lease mutex while calling back can reach, with one Put of a leased key, a state in which nobody can go |
| `Locks.HoardingWaitsForItself` | src/lease/lease_manager.cpp:54-62 | and is stuck on its own once the deleted key names a lease |
| `Locks.ReadingUnlockedMatters` | src/kv/kv_store.h:96 | had CurrentRevision locked the store, every reported put would be stuck |
| `Iteration.SortLists` | src/kv/kv_store.cpp:109-119 | sorting any enumeration of the matching records by key gives the one ascending listing |
| `Components.LeaseManager.Grant` | src/lease/lease_manager.cpp:31-44 | a fresh id, a lease with no keys that expires at now plus ttl, all else unchanged |
| `Components.LeaseManager.KeepAlive` | src/lease/lease_manager.cpp:66-79 | moves a live lease's expiry to now plus its ttl; NOT_FOUND otherwise |
| `Components.LeaseManager.AttachKey` | src/lease/lease_manager.cpp:101-110 | adds the key to a live lease's set; NOT_FOUND and no change otherwise |
| `Components.LeaseManager.DetachKey` | src/lease/lease_manager.cpp:112-121 | takes it out again |
| `Components.LeaseManager.GetLeaseKeys` | src/lease/lease_manager.cpp:123-132 | each key of the set once, in some order |
| `Components.LeaseManager.Revoke` | src/lease/lease_manager.cpp:46-64 | does to the wired store exactly the run of one Delete for each key followed by the lease's erasure, no mutex held across the callbacks, taken as in the program of a Revoke of that many keys, no watcher told |
| `Components.LeaseManager.CheckExpiration` | src/lease/lease_manager.cpp:175-193 | finds exactly the expired leases and does to the wired store the run that revokes one after another |
| `Components.KVStore.Put` | src/kv/kv_store.cpp:28-80 | new store, lease table and revision are those of one Put step; the watch manager hears exactly its notice, carrying the previous record; that record is returned on request; the mutexes are taken as in one mutation with one report |
| `Components.KVStore.Get` | src/kv/kv_store.cpp:82-90 | the record, or NOT_FOUND |
| `Components.KVStore.RangeInternal` | src/kv/kv_store.cpp:106-141 | whatever order the hash map is walked in, the sorted, limited, reduced listing of the keys in range |
| `Components.KVStore.Range` | src/kv/kv_store.cpp:143-149 | the same under the mutex, changing nothing |
| `Components.KVStore.Delete` | src/kv/kv_store.cpp:151-207 | removes exactly the keys in range from store and lease table at one new revision; returns their records and reports each of them iff asked to collect |
| `Components.KVStore.DeleteSingle` | src/kv/kv_store.cpp:160-172 | the single-key path does what the range path does with an empty range end |
| `Components.KVStore.DeleteRange` | src/kv/kv_store.cpp:174-191 | collects first, then detaches and erases; every key in range goes from store and index, in the order collected |
| `Components.KVStore.Txn` | src/kv/kv_store.cpp:271-387 | succeeds iff every compare holds before any operation; the final state is the fold of the chosen operations at one revision; response i answers operation i in the state after the first i |
| `Components.KVStore.EvaluateAll` | src/kv/kv_store.cpp:278-286 | stopping at the first failing compare gives the same verdict as evaluating all, in any order |
| `Components.KVStore.TxnPut` | src/kv/kv_store.cpp:294-330 | the transaction's own put code, lease branches included, writes the record and moves the lease as Put does; prev_kv is the record before this operation, an empty one for a new key |
| `Components.KVStore.TxnDelete` | src/kv/kv_store.cpp:332-363 | the transaction's own collect and erase loops remove exactly the keys in range from store and index; `deleted` is their number, the previous records are returned iff asked for |
| `Components.WatchManager.NotifyPut` | src/watch/watch_manager.cpp:113-142 | each registered watcher whose range has the key, and no other, gets one PUT response, whatever order the table is walked in and whatever record is passed |
| `Components.WatchManager.NotifyDelete` | src/watch/watch_manager.cpp:144-169 | likewise one DELETE response |
| `Components.WatchManager.RegisterWatcher` | src/watch/watch_manager.cpp:46-88 | a new id whose stream is the created response and, for a positive start revision, the snapshot; the watcher enters the table, all other streams unchanged |
| `Components.WatchManager.SendHistoricalEvents` | src/watch/watch_manager.cpp:181-207 | appends one PUT for each record in range, ascending, dated with its mod revision |
| `Components.WatchManager.CancelWatcher` | src/watch/watch_manager.cpp:90-111 | a canceled response and removal from the table; NOT_FOUND and no change for an unknown id; the watch mutex taken once, the stream's inside it |
| `Server.EtcdLiteServer.constructor` | src/server.cpp:26-53 | the wiring, in the empty initial state |
| `Server.EtcdLiteServer.Reachable` | src/server.cpp:26-53 | every state of a wired server is the run of its history: records well formed, watchers consistent, lease index sound, the thread's use of the mutexes disciplined |
| `Server.EtcdLiteServer.DeleteRange` | src/services/kv_service_impl.cpp:82-103 | reports as deleted exactly the drop in the store's size |
| `Server.EtcdLiteServer.Put` | src/kv/kv_store.cpp:28-80 | one Put of the history with its previous record; like every operation of the server it takes and gives back mutexes as the program of one call |
| `Server.EtcdLiteServer.Txn` | src/kv/kv_store.cpp:271-387 | the transaction's outcome on the wired server; no stream changes |
| `Server.EtcdLiteServer.LeaseGrant` | src/lease/lease_manager.cpp:31-44 | on a wired server the granted id was not live before, and has the ttl asked for |
| `Server.EtcdLiteServer.LeaseKeepAlive` | src/lease/lease_manager.cpp:66-79 | returns the ttl of the Grant in the history that issued the id, and the lease expires at now plus that |
| `Server.EtcdLiteServer.LeaseRevoke` | src/lease/lease_manager.cpp:46-64 | from any reachable state a live lease goes with exactly its keys and no stream changes; an unknown one changes nothing |
| `Server.EtcdLiteServer.CheckExpiration` | src/lease/lease_manager.cpp:175-193 | from any reachable state the sweep removes every expired lease with exactly its keys and no stream changes |
| `Server.EtcdLiteServer.WatchCreate` | src/watch/watch_manager.cpp:46-88 | registration is one step of the server's history; the stream starts with a created response carrying the number of writes so far plus one, alone unless a positive start revision is asked for |
| `Server.EtcdLiteServer.WatchCancel` | src/watch/watch_manager.cpp:90-111 | a registered watcher's stream ends with a canceled response; an unknown id is NOT_FOUND |

## Left out

- gRPC services, stream reads and writes, `main.cpp`, server start and stop: input and output. A write to a stream always succeeds, so RegisterWatcher's INTERNAL error and a null stream do not appear.
- `TimeToLive`, `GetLeaseTTL`, `KeyExists`, `LeaseExists`: reads without state; the first two truncate a clock difference.
- Cluster and member ids, raft term, Maintenance status, Compact: constants or no-ops. Response headers keep their revision only.
- The real clock, `StartExpirationCheck` and `StopExpirationCheck`: the sweep takes the time as a parameter, at whole ticks.
- Overflow of 64-bit revisions, versions, ids and times: integers are unbounded.
- Revisions of the past, filtering by `start_revision`, and the response field `more` beyond being false: the code keeps the current records only.
- The order of responses to different watchers on one shared gRPC stream: each watch id has a sequence of its own.
- `WatchManager`'s destructor, and `active` turning false: a canceled watcher leaves the table in the same critical section.
- Direct calls of AttachKey and DetachKey from outside KVStore; SetLeaseManager or SetWatchCallback after start.
- `Components.KVStore.RangeInternal`: `std::sort` is an insertion sort by key, since with distinct keys every sort gives the same listing. Vectors of pointers are sequences of records.
- `Components.KVStore.State`: a store without a lease manager is a store with an empty lease table.
- `Server.EtcdLiteServer.DeleteRange`: always hands back the previous records; the service drops them when prev_kv is not asked for.
- `Interleaving.SoundInEveryInterleaving`: any thread may erase any lease and begin any Delete at any time, which covers Revoke and the sweep without tying an erasure to its own deletes.
- `Locks.EveryCallIsDisciplined`: programs leave open how many lease calls a mutation makes and which watchers a report reaches; the classes' contracts say which program each operation's record is, for some such numbers.
- `Disturbed.OnlyLateWritesEscapeRevoke`: the key set is read, and other calls are made, between whole calls; `Reading.LeftWheneverRead` has it read anywhere.
- `Disturbed.WhatRevokeLeaves`: likewise.
- `Disturbed.WhatRevokeTakes`: likewise; `Reading.TakenWheneverRead` has it read anywhere.
- `LeaseIndex.RenewedLeaseSurvives`: a Revoke, of a client or of an interrupted sweep, is whole; `Disturbed.RenewedLeaseKeepsItsKeys` takes one sweep apart, `Disturbed.SparedLeaseKeepsItsKeys` says what a key set read earlier may still delete.
- `Watch.WatcherLife`: registration is one step; `Registration.LifeInSteps` has three.
- `Watch.LiveStreamRevisions`: registration falls between whole calls; `Registration.HeardInOrder` and `Registration.StrictlyLaterIff` let it fall anywhere.
- `Watch.ReplayAcrossGap`: calls are whole; `Clients.KeyIsRightIff` lets the watcher enter between two reports of one call.
- `Watch.WatcherRebuildsTheStore`: registration is one step and only reporting calls follow; `Clients.ClientIsRightIff` has neither restriction.
- `Clients.KeyIsRightIff`: a call makes its changes to the store in one step, since nobody can read between them, and a watcher takes its id and reads the revision in one step; streams and cancellation are otherwise step by step.
- `Tearing.TearableIff`: reads of the lease table by other threads in the middle of a call are not compared, only the states calls end in.
