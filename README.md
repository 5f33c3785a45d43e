# Sharded parameter table: routing layer and coordinator set-up

This project models two sequential pieces of the SINGA/lapis parameter-server
code in Dafny and proves what they promise.

- `table.dfy` (module `Tables`) models `TypedGlobalTable<K,V>` from
  `include/core/global-table.h`. This is the layer that sends every put, update
  and get either to a local partition or to the shard's remote owner.
  - The table is a class. Its fields are the ownership vector `partinfo`, the
    per-shard partitions (maps) and the worker id.
  - Every operation is a method. Its contract fixes three things:
    - the new partitions;
    - the exact sequence of effects it appends to a recorded `trace`: registry
      acquire and release, partition read or write, flush, remote fetch;
    - the state of the request dispatcher's registry of held keys, which is
      modelled as a class with `Register` and `Release`.
  - Each call ends in one of three outcomes:
    - `Done` with its result;
    - `Blocked`, when a local access would wait for another holder of the key
      (nothing has happened yet at that point);
    - `Fatal`, when the sharder's answer fails the range checks of `get_shard`,
      or for `remove`.
- `split_async.dfy` (module `SplitAsync`) models the coordinator side of
  `src/test/test_split_async.cc`. Each of these functions is a method with its
  loops and invariants:
  - `init_messages` and `coordinator_load_data` cut sixteen vector sizes into
    keys of at most `threshold` floats. The second puts each vector into the
    table under the keys 0, 1, 2, ….
  - `coordinator_assign_tables` does three things:
    - it registers the table servers;
    - it deals the table's shards to them round robin;
    - it builds the assignment message while writing each shard's owner into
      the table.
  - These methods are specified by pure functions (`AllChunks`,
    `RoundRobinTasks`, `OwnerAfter`, …), and lemmas prove what those functions
    amount to:
    - every chunk lies in [1, threshold];
    - the chunks of a size sum to it;
    - there are ceil(size/threshold) keys per size;
    - shard s goes to server s mod n;
    - the message has exactly one entry per shard.

As the header's comments on `put` say (include/core/global-table.h:106-108,
155-157), `put` and `update` write `partitions_[shard]` on this host even when
the shard is remote, and then flush (lines 167 and 186).

Where the code and its own comments differ, or where the code does something
worth spelling out, the model follows the code:

- The header comment on `async_get` (include/core/global-table.h:115-116) says it
  returns true, with the value, for local data. The code returns false in every
  case and never sets the value (include/core/global-table.h:225-229).
  `AsyncGet` promises `o != Done(true)`.
- `owner()` simply reads the slot. An unassigned shard reads as -1 and is not
  treated as an error.
- `async_get_collect` chooses the local or the remote path from the shard of
  the key passed in. On the remote path the key is then overwritten with the
  one that was collected.

## Model

| member | source | states |
|---|---|---|
| Tables.CreateLocal | include/core/global-table.h:282-289 | create_local yields a partition for the given shard that holds no key |
| Tables.LocalPartition.Put | include/core/global-table.h:167 | a partition put stores v under k and every other key keeps its value |
| Tables.LocalPartition.Update | include/core/global-table.h:186 | a partition update merges v into an existing value with the accumulator, stores v for a new key, and leaves every other key alone |
| Tables.RequestDispatcher.Register | include/core/global-table.h:164-165 | registering a key succeeds exactly when no one holds it, and the key is held afterwards |
| Tables.RequestDispatcher.Release | include/core/global-table.h:169-170 | event_complete releases exactly that key |
| Tables.TypedGlobalTable.Init | include/core/global-table.h:94-100 | after Init every shard is unassigned (owner -1), slot i holds a fresh empty partition for shard i, and pending writes are 0 |
| Tables.TypedGlobalTable.Owner | include/core/global-table.h:29-31 | owner(shard) is the owner recorded in the shard's partition info, with no check; -1 until assigned |
| Tables.TypedGlobalTable.IsLocalShard | include/core/global-table.h:35 | is_local_shard, only declared in the header, is taken to mean that the shard's owner is this worker |
| Tables.TypedGlobalTable.GetLocal | include/core/global-table.h:149-153 | get_local gives a value exactly when the key's shard partition here holds k, and then the stored value |
| Tables.TypedGlobalTable.GetShard | include/core/global-table.h:132-141 | get_shard yields the sharder's answer exactly when it lies in [0, num_shards); otherwise the check fails |
| Tables.TypedGlobalTable.SetOwner | src/test/test_split_async.cc:121 | writing a partition's owner changes that one slot of partinfo and nothing else |
| Tables.TypedGlobalTable.SendUpdates | include/core/global-table.h:42 | a flush is recorded and no table state changes |
| Tables.TypedGlobalTable.GetRemote | include/core/global-table.h:79 | a remote fetch is recorded and its reply handed back; no table state changes |
| Tables.TypedGlobalTable.Put | include/core/global-table.h:158-176 | fatal iff the shard check fails. Blocked iff the shard is local and the key is held. Otherwise the pair is written into k's shard partition here in every case. A local shard brackets the write with one acquire and one event_complete on the encoded key. A remote shard writes and then flushes. The registry ends as it started |
| Tables.TypedGlobalTable.Update | include/core/global-table.h:178-195 | as put, with the partition merging through the accumulator |
| Tables.TypedGlobalTable.Get | include/core/global-table.h:197-212 | a local shard gives the partition's value for k between one acquire and one event_complete. A remote shard gives the decoded fetch reply after exactly one remote fetch. Nothing else changes |
| Tables.TypedGlobalTable.AsyncGet | include/core/global-table.h:221-232 | never returns true and never blocks. A local shard has no effect. A remote shard issues exactly one asynchronous fetch |
| Tables.TypedGlobalTable.AsyncGetCollect | include/core/global-table.h:243-262 | local: ready iff the key can be registered, and then it gives the local value and releases the key at once; otherwise not ready and nothing changes. Remote: it collects once and decodes the collected pair, if any. The registry ends as it started |
| Tables.TypedGlobalTable.Contains | include/core/global-table.h:265-275 | a local shard answers partition membership. A remote shard answers whether the owner found the key |
| Tables.TypedGlobalTable.Remove | include/core/global-table.h:277-280 | remove always aborts |
| Tables.LocalPutThenGet | include/core/global-table.h:150-153 | a local put of (k, v) followed by a get of k returns v |
| Tables.ContainsAfterLocalPut | include/core/global-table.h:266-270 | contains is false on an empty local partition and true right after a local put of the key |
| Tables.RemoteGetOfEncoded | include/core/global-table.h:209-211 | with a round-tripping value codec, a remote get whose owner sends the encoding of v returns v |
| SplitAsync.Vectors | src/test/test_split_async.cc:58 | value_msg gets one vector per chunk length, in order |
| SplitAsync.ChunksFromBounds | src/test/test_split_async.cc:53-56 | every vector cut from a size holds between 1 and threshold floats |
| SplitAsync.ChunksFromSum | src/test/test_split_async.cc:53-59 | the vectors cut from a size hold exactly that many floats in total |
| SplitAsync.ChunksFromCount | src/test/test_split_async.cc:53-61 | a size yields ceil(size / threshold) vectors |
| SplitAsync.ChunksSpec | src/test/test_split_async.cc:50-61 | the three facts above for one whole size |
| SplitAsync.AllChunksCount | src/test/test_split_async.cc:49-63 | num_keys is the sum over the sixteen sizes of ceil(size / threshold) |
| SplitAsync.AllChunksOneEach | src/test/test_split_async.cc:50-61 | sizes no larger than the threshold become one key each |
| SplitAsync.DefaultKeys | src/test/test_split_async.cc:29 | under the default threshold of 1e8 the sixteen sizes make sixteen keys |
| SplitAsync.FillVector | src/test/test_split_async.cc:55-57 | the inner loop adds min(threshold, size - total) floats |
| SplitAsync.InitMessages | src/test/test_split_async.cc:49-63 | value_msg gains the vectors of all chunks of all sizes in order, and num_keys is their number |
| SplitAsync.PutKey | src/test/test_split_async.cc:153 | putting the next key stores its vector and changes no other key. It appends exactly put's effects to the trace, and it leaves owners, worker id and pending writes alone |
| SplitAsync.LoadSize | src/test/test_split_async.cc:147-157 | the chunks of one size are stored under the next consecutive keys. Owners, worker id and pending writes are kept, and the trace only grows |
| SplitAsync.CoordinatorLoadData | src/test/test_split_async.cc:142-162 | key k ends holding the k-th chunk's vector for every k below num_keys, num_keys matches init_messages, and every other key is untouched. Owners, worker id and pending writes are kept, and the trace only grows |
| SplitAsync.InitAndLoadAgree | src/test/test_split_async.cc:189 | the workers' init_messages (line 189) and the coordinator's load (line 260) agree: both count the same keys, and table key k holds a vector as long as the k-th message |
| SplitAsync.ServerState.constructor | src/test/test_split_async.cc:85 | a new server record has its id and no shards |
| SplitAsync.TableServersBelowSpec | src/test/test_split_async.cc:79-87 | the registered ids are exactly the table servers among 0 .. num_processes-2, in increasing order |
| SplitAsync.RegisterServers | src/test/test_split_async.cc:79-87 | server_states holds one fresh record per table server, in index order, whatever the order of the registration messages |
| SplitAsync.RoundRobinTasks | src/test/test_split_async.cc:96-106 | server j's shards are those s < num_shards with s mod n = j |
| SplitAsync.RoundRobinStep | src/test/test_split_async.cc:103-104 | handing out one more shard adds it to server (shard mod n) only |
| SplitAsync.LastShardStep | src/test/test_split_async.cc:102-103 | a server that is passed over keeps a shard_id that is still its last shard |
| SplitAsync.RoundRobinAdvance | src/test/test_split_async.cc:98-105 | one loop step keeps server_idx = shard mod n (so in [0, n)), the shard sets and the last-shard ids |
| SplitAsync.AssignRoundRobin | src/test/test_split_async.cc:96-106 | each server gains exactly its round-robin shards. shard_id becomes its last such shard. Servers beyond num_shards keep their shard_id |
| SplitAsync.SurplusServersGetNothing | src/test/test_split_async.cc:96-106 | with more servers than shards the surplus servers get no shard |
| SplitAsync.FourShardsTwoServers | src/test/test_split_async.cc:96-106 | four shards over two servers: {0, 2} and {1, 3} |
| SplitAsync.ServerAssignments | src/test/test_split_async.cc:114-118 | a server's message entries are exactly (its id, table, shard) for its tasks |
| SplitAsync.EmitServer | src/test/test_split_async.cc:112-123 | one server's tasks each add one entry and make the server the shard's owner, in any set order |
| SplitAsync.BuildAssignment | src/test/test_split_async.cc:108-125 | the message holds the entries of all servers' tasks, one per task, and each shard's owner is the last server holding it |
| SplitAsync.OwnerAfterRoundRobin | src/test/test_split_async.cc:110-125 | after round robin the owner written for shard s is server (s mod n) |
| SplitAsync.AssignmentsRoundRobin | src/test/test_split_async.cc:110-125 | after round robin the message entries are exactly (server s mod n, table, s) for s < num_shards |
| SplitAsync.RoundRobinCountStep | src/test/test_split_async.cc:96-106 | one more shard adds one task to exactly one server |
| SplitAsync.RoundRobinCountAll | src/test/test_split_async.cc:96-106 | round robin hands out num_shards tasks in all |
| SplitAsync.TaskCountRoundRobin | src/test/test_split_async.cc:110-125 | the message length is the number of round-robin tasks |
| SplitAsync.RoundRobinMessage | src/test/test_split_async.cc:110-125 | after round robin the message holds exactly one (server s mod n, table, s) entry per shard, and shard s ends owned by server s mod n |
| SplitAsync.CoordinatorAssignTables | src/test/test_split_async.cc:78-128 | the coordinator becomes the table's worker. Shard s is dealt to and owned by table server s mod n. The message has num_shards entries, exactly one (server s mod n, table, s) per shard |
| SplitAsync.AssignThenLoad | src/test/test_split_async.cc:259-260 | assigning the table and then loading it keeps owner s = server s mod n, and it stores every chunk under its key |

## Left out

- Transport: the registration `network->Read`, `SyncBroadcast`, the flushes and `barrier`. The registration messages do not affect the result, so they are not modelled, and the broadcast message is returned as `req`.
- The bodies of `SendUpdates`, `get_remote`, `async_get_remote` and `async_get_remote_collect` are only declared in the header. Each call is recorded in the trace, and its answer is a parameter.
- `handle_get`, `ApplyUpdates`, `UpdatePartitions`, `clear`, `stats` and `resize` have no bodies here and are not modelled.
- `get_shard_str` (include/core/global-table.h:143-147) unmarshals a key and calls `get_shard`. It is not modelled.
- `is_local_shard` is only declared. It is modelled as "the shard's owner is this worker".
- core/request_dispatcher.h is not among the source files modelled here, so the behaviour of `sync_local_put` and `sync_local_get` is assumed. `RequestDispatcher` models them as registering the key. It also assumes that the call at line 165 and the call at line 204 wait while another caller holds the key. Line 204 discards the return value, so the text does not show that it waits. A waiting call is modelled as `Blocked` with nothing done. The mutex and the threads are left out.
- `LocalTable` and `SparseTable` are not part of this model. A partition is a map: `update` merges through the descriptor's accumulator, and a get of an absent key yields None.
- The local poll of `async_get_collect` registers with the dispatcher's table queue (include/core/global-table.h:247). That is a different object from the dispatcher used by put, update and get (lines 165, 170, 204, 206). It also releases through the dispatcher (line 249). The model merges the two registries into one held-key set.
- `get_shard`'s range checks are `DCHECK`s (include/core/global-table.h:138-139). `Fatal` therefore models the debug build. In a release build the checks vanish, and an out-of-range shard indexes `partitions_` out of bounds. That undefined behaviour is not modelled.
- Marshalling is an abstract codec (`Codec`). Round-tripping is assumed only where a lemma states it (`RoundTrips`).
- `pending_writes_` is only initialised. The remote write queue behind it is not modelled.
- The sharder is an arbitrary function of the key and the shard count. The load pass assumes, as `Sharding::Mod` does, that non-negative keys fall in range, and that no key is held in the registry.
- The `tables` map holds one table, so the assignment works on one table, `t`. `TasksOf` is a precondition of the message build. It covers the `CHECK` that the task's table exists (src/test/test_split_async.cc:119). It also requires each task's shard to be in range. The code does not check that: `get_partition_info` indexes `partinfo_` unchecked (include/core/global-table.h:25-27). The shard is in range because the round-robin loop deals only shards below num_shards.
- SplitAsync.CoordinatorAssignTables: does not cover the case with shards but no table server (line 98 indexes an empty vector and line 105 divides by zero), so that case is excluded by a precondition.
- SplitAsync.CoordinatorAssignTables: `local_shards` holds `TaskId*`. After putting a task into the message, the build deletes it (line 122) and leaves the dangling pointer in the set. The model keeps the tasks as values, so its `localShards` postcondition describes the sets as dealt, not storage that is already freed.
- FloatVector contents are `rand()` draws and are not modelled. A vector is its length.
- SplitAsync.ChunksSpec: holds only for integer thresholds. `FLAGS_threshold` is a double, modelled as a positive integer. With a fractional threshold the source cuts differently: `j < threshold` admits ceil(threshold) floats, while `total += threshold` truncates back to an int. For example, threshold 2.5 cuts size 5 into 3, 3 and 1 floats, which sum to 7. Any threshold in (0, 1) loops forever, and so does a non-positive threshold. The overflow of `int total` is not modelled either.
- Worker-side `get`, `update`, `worker_test_data`, `print_table_stats`, `shutdown`, `main`, timing and latency logging are not modelled.
- src/net/param.cc (floating-point parameter initialisation) and src/main.cc (process start-up) are not modelled.
