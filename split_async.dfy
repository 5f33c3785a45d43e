/** Model of the coordinator side of src/test/test_split_async.cc: the
    round-robin assignment of a table's shards to the registered table
    servers, and the cutting of sixteen parameter vectors into keys of at
    most `threshold` floats each. */
module SplitAsync {
  import opened Tables

  /** A FloatVector, kept as the number of floats it holds; the floats
      themselves are random draws. */
  datatype FloatVector = FloatVector(size: nat)

  const SIZE: nat := 16

  /** The sixteen vector sizes the test splits. */
  const Sizes: seq<int> := [37448736, 16777216, 4096000, 1327104, 884736, 884736, 614400,
                            14112, 4096, 4096, 1000, 384, 384, 256, 256, 96]

  /** The default of the `threshold` flag. */
  const DefaultThreshold: nat := 100000000

  function Min(a: int, b: int): int
  {
    if a <= b then a else b
  }

  // ---------------------------------------------------------------------
  // Chunking

  /** The lengths of the vectors cut from `size` floats once `total` of them
      are covered: each takes what is left, but at most `threshold`. */
  function ChunksFrom(size: int, total: int, threshold: nat): seq<nat>
    requires threshold > 0
    decreases size - total
  {
    if total < size then [Min(threshold, size - total)] + ChunksFrom(size, total + threshold, threshold)
    else []
  }

  function Chunks(size: int, threshold: nat): seq<nat>
    requires threshold > 0
  {
    ChunksFrom(size, 0, threshold)
  }

  /** The chunk lengths of all of `sizes`, in order. */
  function AllChunks(sizes: seq<int>, threshold: nat): seq<nat>
    requires threshold > 0
  {
    if sizes == [] then []
    else AllChunks(sizes[..|sizes| - 1], threshold) + Chunks(sizes[|sizes| - 1], threshold)
  }

  /** One vector per chunk length. */
  function Vectors(lengths: seq<nat>): (r: seq<FloatVector>)
    ensures |r| == |lengths|
    ensures forall i :: 0 <= i < |r| ==> r[i] == FloatVector(lengths[i])
  {
    if lengths == [] then []
    else Vectors(lengths[..|lengths| - 1]) + [FloatVector(lengths[|lengths| - 1])]
  }

  function Sum(s: seq<nat>): int
  {
    if s == [] then 0 else s[0] + Sum(s[1..])
  }

  /** ceil(x / t) for positive x, 0 otherwise. */
  function CeilDiv(x: int, t: nat): nat
    requires t > 0
  {
    if x <= 0 then 0 else (x - 1) / t + 1
  }

  function SumCeil(sizes: seq<int>, threshold: nat): int
    requires threshold > 0
  {
    if sizes == [] then 0
    else SumCeil(sizes[..|sizes| - 1], threshold) + CeilDiv(sizes[|sizes| - 1], threshold)
  }

  /** Every chunk holds at least one float and at most `threshold`. */
  lemma {:induction false} ChunksFromBounds(size: int, total: int, threshold: nat)
    requires threshold > 0
    ensures forall i :: 0 <= i < |ChunksFrom(size, total, threshold)| ==>
      1 <= ChunksFrom(size, total, threshold)[i] <= threshold
    decreases size - total
  {
    if total < size {
      ChunksFromBounds(size, total + threshold, threshold);
    }
  }

  /** The chunks cover exactly the floats not yet covered. */
  lemma {:induction false} ChunksFromSum(size: int, total: int, threshold: nat)
    requires threshold > 0
    ensures Sum(ChunksFrom(size, total, threshold)) == if total < size then size - total else 0
    decreases size - total
  {
    if total < size {
      ChunksFromSum(size, total + threshold, threshold);
    }
  }

  lemma {:induction false} MulAtLeast(a: int, t: int)
    requires a >= 1 && t > 0
    ensures a * t >= t
    decreases a
  {
    if a > 1 {
      MulAtLeast(a - 1, t);
      assert a * t == (a - 1) * t + t;
    }
  }

  lemma DivUnique(n: int, t: int, q: int, r: int)
    requires t > 0 && 0 <= r < t && n == q * t + r
    ensures n / t == q
  {
    var q', r' := n / t, n % t;
    assert n == q' * t + r';
    if q' < q {
      MulAtLeast(q - q', t);
    } else if q' > q {
      MulAtLeast(q' - q, t);
    }
  }

  lemma CeilDivStep(x: int, t: nat)
    requires t > 0 && x > t
    ensures CeilDiv(x, t) == CeilDiv(x - t, t) + 1
  {
    var a := x - 1 - t;
    var q, r := a / t, a % t;
    assert a == q * t + r;
    assert a + t == (q + 1) * t + r;
    DivUnique(a + t, t, q + 1, r);
  }

  /** There are ceil(remaining / threshold) chunks. */
  lemma {:induction false} ChunksFromCount(size: int, total: int, threshold: nat)
    requires threshold > 0
    ensures |ChunksFrom(size, total, threshold)| == CeilDiv(size - total, threshold)
    decreases size - total
  {
    if total < size {
      ChunksFromCount(size, total + threshold, threshold);
      if size - total > threshold {
        CeilDivStep(size - total, threshold);
      }
    }
  }

  /** The chunks of one size: lengths in [1, threshold], summing to the size,
      ceil(size / threshold) of them. */
  lemma ChunksSpec(size: int, threshold: nat)
    requires threshold > 0
    ensures forall i :: 0 <= i < |Chunks(size, threshold)| ==> 1 <= Chunks(size, threshold)[i] <= threshold
    ensures size >= 0 ==> Sum(Chunks(size, threshold)) == size
    ensures |Chunks(size, threshold)| == CeilDiv(size, threshold)
  {
    ChunksFromBounds(size, 0, threshold);
    ChunksFromSum(size, 0, threshold);
    ChunksFromCount(size, 0, threshold);
  }

  /** The number of keys is the sum over the sizes of ceil(size / threshold). */
  lemma {:induction false} AllChunksCount(sizes: seq<int>, threshold: nat)
    requires threshold > 0
    ensures |AllChunks(sizes, threshold)| == SumCeil(sizes, threshold)
    decreases |sizes|
  {
    if sizes != [] {
      AllChunksCount(sizes[..|sizes| - 1], threshold);
      ChunksFromCount(sizes[|sizes| - 1], 0, threshold);
    }
  }

  /** With every size at most the threshold, each size is one key. */
  lemma {:induction false} AllChunksOneEach(sizes: seq<int>, threshold: nat)
    requires threshold > 0
    requires forall i :: 0 <= i < |sizes| ==> 0 < sizes[i] <= threshold
    ensures AllChunks(sizes, threshold) == sizes
    decreases |sizes|
  {
    if sizes != [] {
      var last := sizes[|sizes| - 1];
      AllChunksOneEach(sizes[..|sizes| - 1], threshold);
      assert ChunksFrom(last, threshold, threshold) == [];
      assert Chunks(last, threshold) == [last];
      assert sizes[..|sizes| - 1] + [last] == sizes;
    }
  }

  /** Under the default threshold every one of the sixteen vectors fits in
      one key, so sixteen keys are made. */
  lemma DefaultKeys()
    ensures AllChunks(Sizes, DefaultThreshold) == Sizes
    ensures |AllChunks(Sizes, DefaultThreshold)| == SIZE
  {
    AllChunksOneEach(Sizes, DefaultThreshold);
  }

  lemma AllChunksSnoc(sizes: seq<int>, i: nat, threshold: nat)
    requires threshold > 0 && i < |sizes|
    ensures AllChunks(sizes[..i + 1], threshold) == AllChunks(sizes[..i], threshold) + Chunks(sizes[i], threshold)
  {
    assert sizes[..i + 1][..i] == sizes[..i];
  }

  lemma VectorsSnoc(msgs: seq<FloatVector>, before: seq<nat>, done: seq<nat>, x: nat)
    ensures msgs + Vectors(before + done) + [FloatVector(x)] == msgs + Vectors(before + (done + [x]))
  {
    var lengths := before + done;
    assert (lengths + [x])[..|lengths|] == lengths;
    assert before + (done + [x]) == lengths + [x];
  }

  /** One more chunk of `size` is cut at offset `total`. */
  lemma ChunkStep(size: int, total: int, threshold: nat, done: seq<nat>, x: nat)
    requires threshold > 0 && total < size && x == Min(threshold, size - total)
    requires done + ChunksFrom(size, total, threshold) == Chunks(size, threshold)
    ensures (done + [x]) + ChunksFrom(size, total + threshold, threshold) == Chunks(size, threshold)
  {
    assert ChunksFrom(size, total, threshold) == [x] + ChunksFrom(size, total + threshold, threshold);
  }

  /** The innermost loop of both drivers: one value is added per index j
      with j + total < size and j < threshold. */
  method FillVector(size: int, total: int, threshold: nat) returns (fv: FloatVector)
    requires total < size
    ensures fv.size == Min(threshold, size - total)
  {
    fv := FloatVector(0);
    var j := 0;
    while j + total < size && j < threshold
      invariant 0 <= j <= threshold && j + total <= size
      invariant fv.size == j
    {
      fv := FloatVector(fv.size + 1);
      j := j + 1;
    }
  }

  /** init_messages: appends one vector per chunk of every size to
      `valueMsg` and counts the keys. */
  method InitMessages(valueMsg: seq<FloatVector>, threshold: nat) returns (valueMsg': seq<FloatVector>, numKeys: int)
    requires threshold > 0
    ensures valueMsg' == valueMsg + Vectors(AllChunks(Sizes, threshold))
    ensures numKeys == |AllChunks(Sizes, threshold)|
  {
    valueMsg' := valueMsg;
    numKeys := 0;
    var i := 0;
    while i < SIZE
      invariant 0 <= i <= SIZE
      invariant valueMsg' == valueMsg + Vectors(AllChunks(Sizes[..i], threshold))
      invariant numKeys == |AllChunks(Sizes[..i], threshold)|
    {
      ghost var before := AllChunks(Sizes[..i], threshold);
      var size := Sizes[i];
      var total := 0;
      ghost var done: seq<nat> := [];
      assert before + done == before;
      while total < size
        invariant done + ChunksFrom(size, total, threshold) == Chunks(size, threshold)
        invariant valueMsg' == valueMsg + Vectors(before + done)
        invariant numKeys == |before + done|
        decreases size - total
      {
        var fv := FillVector(size, total, threshold);
        ChunkStep(size, total, threshold, done, fv.size);
        VectorsSnoc(valueMsg, before, done, fv.size);
        valueMsg' := valueMsg' + [fv];
        done := done + [fv.size];
        total := total + threshold;
        numKeys := numKeys + 1;
      }
      assert done == Chunks(size, threshold);
      AllChunksSnoc(Sizes, i, threshold);
      i := i + 1;
    }
    assert Sizes[..SIZE] == Sizes;
  }

  /** Key k of the table's local partitions holds the k-th vector of
      `written`, for every k below |written|. */
  ghost predicate Stored(t: TypedGlobalTable<int, FloatVector>, written: seq<nat>)
    reads t
    requires t.Valid()
  {
    forall k :: 0 <= k < |written| ==> t.GetShard(k).Some? && t.GetLocal(k) == Some(FloatVector(written[k]))
  }

  /** Every key outside [0, n) reads as it did in `parts`. */
  ghost predicate UntouchedFrom(t: TypedGlobalTable<int, FloatVector>, parts: seq<LocalPartition<int, FloatVector>>, n: int)
    reads t
    requires t.Valid() && |parts| == t.desc.numShards
  {
    forall k :: !(0 <= k < n) && t.GetShard(k).Some? ==> t.GetLocal(k) == parts[t.GetShard(k).value].Lookup(k)
  }

  /** The loader's progress: the keys below |written| hold their vectors and
      every other key is as it was in `parts`. */
  ghost predicate Loaded(t: TypedGlobalTable<int, FloatVector>, written: seq<nat>,
                         parts: seq<LocalPartition<int, FloatVector>>)
    reads t
    requires t.Valid() && |parts| == t.desc.numShards
  {
    Stored(t, written) && UntouchedFrom(t, parts, |written|)
  }

  /** table->put(k, fv) with k the next key: with the key's shard in range
      and nothing registered, the put completes and the local partition of
      k's shard maps k to fv; no other key changes. */
  method PutKey(t: TypedGlobalTable<int, FloatVector>, k: int, fv: FloatVector,
                ghost written: seq<nat>, ghost parts: seq<LocalPartition<int, FloatVector>>)
    requires k == |written|
    requires t.Valid() && t.dispatcher.held == {} && forall k :: 0 <= k ==> t.GetShard(k).Some?
    requires |parts| == t.desc.numShards
    requires Loaded(t, written, parts)
    modifies t, t.dispatcher
    ensures t.Valid() && t.dispatcher.held == {}
    ensures Loaded(t, written + [fv.size], parts)
    ensures t.partinfo == old(t.partinfo) && t.workerId == old(t.workerId) && t.pendingWrites == old(t.pendingWrites)
    ensures var s := t.GetShard(k).value;
      t.trace == old(t.trace) + (if t.IsLocalShard(s)
                                 then [Acquire(t.KeyBytes(k)), PartitionWrite(s), EventComplete(t.KeyBytes(k))]
                                 else [PartitionWrite(s), Flush])
  {
    var o := t.Put(k, fv);
  }

  /** The body of coordinator_load_data's outer loop: the chunks of one
      size are put under the keys following the ones already written. */
  method LoadSize(t: TypedGlobalTable<int, FloatVector>, size: int, threshold: nat, numKeys0: int,
                  ghost before: seq<nat>, ghost parts: seq<LocalPartition<int, FloatVector>>)
      returns (numKeys: int)
    requires threshold > 0 && numKeys0 == |before|
    requires t.Valid() && t.dispatcher.held == {} && forall k :: 0 <= k ==> t.GetShard(k).Some?
    requires |parts| == t.desc.numShards && Loaded(t, before, parts)
    modifies t, t.dispatcher
    ensures t.Valid() && t.dispatcher.held == {}
    ensures numKeys == |before + Chunks(size, threshold)|
    ensures Loaded(t, before + Chunks(size, threshold), parts)
    ensures t.partinfo == old(t.partinfo) && t.workerId == old(t.workerId) && t.pendingWrites == old(t.pendingWrites)
    ensures old(t.trace) <= t.trace
  {
    numKeys := numKeys0;
    var total := 0;
    ghost var done: seq<nat> := [];
    ghost var written := before;
    assert before + done == before;
    while total < size
      invariant t.Valid() && t.dispatcher.held == {}
      invariant done + ChunksFrom(size, total, threshold) == Chunks(size, threshold)
      invariant written == before + done && numKeys == |written|
      invariant Loaded(t, written, parts)
      invariant t.partinfo == old(t.partinfo) && t.workerId == old(t.workerId) && t.pendingWrites == old(t.pendingWrites)
      invariant old(t.trace) <= t.trace
      decreases size - total
    {
      var fv := FillVector(size, total, threshold);
      PutKey(t, numKeys, fv, written, parts);
      ChunkStep(size, total, threshold, done, fv.size);
      done := done + [fv.size];
      written := written + [fv.size];
      total := total + threshold;
      numKeys := numKeys + 1;
    }
    assert done == Chunks(size, threshold);
  }

  /** coordinator_load_data: the same chunking, each vector put into the
      table under the next key 0, 1, 2, ...; since put always writes the
      local partition of the key's shard, afterwards each key maps to its
      vector there. */
  method CoordinatorLoadData(t: TypedGlobalTable<int, FloatVector>, threshold: nat) returns (numKeys: int)
    requires threshold > 0
    requires t.Valid() && t.dispatcher.held == {}
    requires forall k :: 0 <= k ==> t.GetShard(k).Some?
    modifies t, t.dispatcher
    ensures numKeys == |AllChunks(Sizes, threshold)|
    ensures t.Valid() && t.dispatcher.held == {}
    ensures Stored(t, AllChunks(Sizes, threshold))
    ensures UntouchedFrom(t, old(t.partitions), numKeys)
    ensures t.partinfo == old(t.partinfo) && t.workerId == old(t.workerId) && t.pendingWrites == old(t.pendingWrites)
    ensures old(t.trace) <= t.trace
  {
    ghost var parts := t.partitions;
    numKeys := 0;
    var i := 0;
    while i < SIZE
      invariant 0 <= i <= SIZE
      invariant t.Valid() && t.dispatcher.held == {}
      invariant numKeys == |AllChunks(Sizes[..i], threshold)|
      invariant Loaded(t, AllChunks(Sizes[..i], threshold), parts)
      invariant t.partinfo == old(t.partinfo) && t.workerId == old(t.workerId) && t.pendingWrites == old(t.pendingWrites)
      invariant old(t.trace) <= t.trace
    {
      numKeys := LoadSize(t, Sizes[i], threshold, numKeys, AllChunks(Sizes[..i], threshold), parts);
      AllChunksSnoc(Sizes, i, threshold);
      i := i + 1;
    }
    assert Sizes[..SIZE] == Sizes;
  }

  /** The keys of the workers' init_messages and of the coordinator's
      coordinator_load_data agree: both passes count the same keys, and key k
      of the loaded table holds a vector as long as the k-th message. The
      load leaves the shard owners, the worker id and the pending writes as
      they were. */
  method InitAndLoadAgree(t: TypedGlobalTable<int, FloatVector>, threshold: nat)
      returns (valueMsg: seq<FloatVector>, initKeys: int, loadKeys: int)
    requires threshold > 0
    requires t.Valid() && t.dispatcher.held == {}
    requires forall k :: 0 <= k ==> t.GetShard(k).Some?
    modifies t, t.dispatcher
    ensures initKeys == loadKeys == |valueMsg|
    ensures t.Valid()
    ensures forall k :: 0 <= k < loadKeys ==> t.GetShard(k).Some? && t.GetLocal(k) == Some(valueMsg[k])
    ensures t.partinfo == old(t.partinfo) && t.workerId == old(t.workerId) && t.pendingWrites == old(t.pendingWrites)
  {
    valueMsg, initKeys := InitMessages([], threshold);
    loadKeys := CoordinatorLoadData(t, threshold);
  }

  // ---------------------------------------------------------------------
  // Shard assignment

  datatype TaskId = TaskId(table: int, shard: int)

  /** One (table, shard, new owner) triple of the assignment message. */
  datatype ShardAssignment = ShardAssignment(newWorker: int, table: int, shard: int)

  /** What the global context answers: the number of processes and which of
      them are table servers. */
  datatype GlobalContext = GlobalContext(numProcesses: int, isTableServer: int -> bool)

  /** The coordinator's record of one table server. */
  class ServerState {
    const serverId: int
    var shardId: int
    var localShards: set<TaskId>

    constructor (serverId: int)
      ensures this.serverId == serverId && localShards == {}
    {
      this.serverId := serverId;
      localShards := {};
    }
  }

  /** The table servers among the processes 0 .. n-1, in increasing order. */
  function TableServersBelow(n: int, isTableServer: int -> bool): seq<int>
    decreases n
  {
    if n <= 0 then []
    else TableServersBelow(n - 1, isTableServer) + (if isTableServer(n - 1) then [n - 1] else [])
  }

  /** The registration loop reads one message per process other than the
      coordinator, that is, for indices 0 .. numProcesses-2. */
  function TableServerIds(ctx: GlobalContext): seq<int>
  {
    TableServersBelow(ctx.numProcesses - 1, ctx.isTableServer)
  }

  lemma {:induction false} TableServersBelowSpec(n: int, isTableServer: int -> bool)
    ensures forall j :: 0 <= j < |TableServersBelow(n, isTableServer)| ==>
      0 <= TableServersBelow(n, isTableServer)[j] < n && isTableServer(TableServersBelow(n, isTableServer)[j])
    ensures forall j, j' :: 0 <= j < j' < |TableServersBelow(n, isTableServer)| ==>
      TableServersBelow(n, isTableServer)[j] < TableServersBelow(n, isTableServer)[j']
    ensures forall i :: 0 <= i < n && isTableServer(i) ==> i in TableServersBelow(n, isTableServer)
    decreases n
  {
    if n > 0 {
      TableServersBelowSpec(n - 1, isTableServer);
    }
  }

  function Ids(servers: seq<ServerState>): seq<int>
  {
    seq(|servers|, j requires 0 <= j < |servers| => servers[j].serverId)
  }

  ghost predicate Distinct(servers: seq<ServerState>)
  {
    forall a, b :: 0 <= a < b < |servers| ==> servers[a] != servers[b]
  }

  /** The shards below `upTo` that round robin over n servers gives to
      server j. */
  function RoundRobinTasks(id: int, upTo: int, n: nat, j: int): (r: set<TaskId>)
    requires n > 0
    ensures forall task :: task in r <==> task.table == id && 0 <= task.shard < upTo && task.shard % n == j
  {
    set s | 0 <= s < upTo && s % n == j :: TaskId(id, s)
  }

  /** shard_id of server j ends as the last shard below numShards that it
      was given. */
  ghost predicate LastShardOf(shardId: int, j: int, numShards: int, n: nat)
    requires n > 0
  {
    0 <= shardId < numShards <= shardId + n && shardId % n == j
  }

  /** The registration loop of coordinator_assign_tables: one ServerState
      per table server, in process order, whichever process each
      registration message came from. */
  method RegisterServers(ctx: GlobalContext) returns (servers: seq<ServerState>)
    ensures Ids(servers) == TableServerIds(ctx)
    ensures Distinct(servers)
    ensures forall j :: 0 <= j < |servers| ==> fresh(servers[j]) && servers[j].localShards == {}
  {
    servers := [];
    var i := 0;
    while i < ctx.numProcesses - 1
      invariant 0 <= i && (i <= ctx.numProcesses - 1 || i == 0)
      invariant Ids(servers) == TableServersBelow(i, ctx.isTableServer)
      invariant Distinct(servers)
      invariant forall j :: 0 <= j < |servers| ==> fresh(servers[j]) && servers[j].localShards == {}
    {
      if ctx.isTableServer(i) {
        var server := new ServerState(i);
        servers := servers + [server];
      }
      i := i + 1;
    }
  }

  lemma ModNext(a: nat, n: nat)
    requires n > 0
    ensures (a % n + 1) % n == (a + 1) % n
  {
    var q, r := a / n, a % n;
    assert a == q * n + r;
    if r + 1 < n {
      DivUnique(a + 1, n, q, r + 1);
      DivUnique(r + 1, n, 0, r + 1);
    } else {
      assert a + 1 == (q + 1) * n + 0;
      DivUnique(a + 1, n, q + 1, 0);
      DivUnique(r + 1, n, 1, 0);
    }
  }

  /** Handing out shard `upTo` adds it to the set of server upTo mod n
      only. */
  lemma RoundRobinStep(id: int, upTo: nat, n: nat, j: int)
    requires n > 0
    ensures RoundRobinTasks(id, upTo + 1, n, j)
         == RoundRobinTasks(id, upTo, n, j) + (if upTo % n == j then {TaskId(id, upTo)} else {})
  {
  }

  lemma ModPlus(a: int, n: nat)
    requires n > 0
    ensures (a + n) % n == a % n
  {
    var q, r := a / n, a % n;
    assert a + n == (q + 1) * n + r;
    DivUnique(a + n, n, q + 1, r);
  }

  lemma ModBelow(a: nat, n: nat)
    requires n > 0
    ensures a % n <= a
    ensures a < n ==> a % n == a
  {
    if a < n {
      DivUnique(a, n, 0, a);
    } else {
      assert a == (a / n) * n + a % n;
      if a / n == 0 {
      } else {
        MulAtLeast(a / n, n);
      }
    }
  }

  /** A server that is not handed shard `upTo` keeps a shard_id that is
      still its last one below upTo + 1. */
  lemma LastShardStep(shardId: int, j: int, upTo: int, n: nat)
    requires n > 0 && LastShardOf(shardId, j, upTo, n) && j != upTo % n
    ensures LastShardOf(shardId, j, upTo + 1, n)
  {
    if shardId + n == upTo {
      ModPlus(shardId, n);
    }
  }

  /** The shard ids after round robin has handed out the shards below
      `upTo`: each server that got one holds its last, the others keep their
      initial id. */
  ghost predicate LastShards(ids: seq<int>, initialIds: seq<int>, upTo: int)
    requires |ids| > 0 && |initialIds| == |ids|
  {
    (forall j :: 0 <= j < |ids| && j < upTo ==> LastShardOf(ids[j], j, upTo, |ids|)) &&
    (forall j :: 0 <= j < |ids| && upTo <= j ==> ids[j] == initialIds[j])
  }

  /** The shards each server holds after the shards below `upTo` are
      handed out. */
  ghost predicate HoldsRoundRobin(sets: seq<set<TaskId>>, initial: seq<set<TaskId>>, id: int, upTo: int)
    requires |sets| > 0 && |initial| == |sets|
  {
    forall j :: 0 <= j < |sets| ==> sets[j] == initial[j] + RoundRobinTasks(id, upTo, |sets|, j)
  }

  /** One round-robin step on the ghost picture: shard `upTo` goes to
      server upTo mod n. */
  lemma RoundRobinAdvance(ids: seq<int>, initialIds: seq<int>, sets: seq<set<TaskId>>, initial: seq<set<TaskId>>,
                          id: int, upTo: nat, serverIdx: int)
    requires |ids| > 0 && |initialIds| == |ids| == |sets| == |initial|
    requires serverIdx == upTo % |ids|
    requires LastShards(ids, initialIds, upTo) && HoldsRoundRobin(sets, initial, id, upTo)
    ensures 0 <= serverIdx < |ids|
    ensures (serverIdx + 1) % |ids| == (upTo + 1) % |ids|
    ensures LastShards(ids[serverIdx := upTo], initialIds, upTo + 1)
    ensures HoldsRoundRobin(sets[serverIdx := sets[serverIdx] + {TaskId(id, upTo)}], initial, id, upTo + 1)
  {
    var n := |ids|;
    ModBelow(upTo, n);
    ModNext(upTo, n);
    forall j | 0 <= j < n && j < upTo && j != serverIdx
      ensures LastShardOf(ids[j], j, upTo + 1, n)
    {
      LastShardStep(ids[j], j, upTo, n);
    }
    forall j | 0 <= j < n
      ensures RoundRobinTasks(id, upTo + 1, n, j)
           == RoundRobinTasks(id, upTo, n, j) + (if upTo % n == j then {TaskId(id, upTo)} else {})
    {
      RoundRobinStep(id, upTo, n, j);
    }
  }

  /** The ghost picture matches the servers' fields. */
  ghost predicate Mirrors(servers: seq<ServerState>, ids: seq<int>, sets: seq<set<TaskId>>)
    reads set j | 0 <= j < |servers| :: servers[j]
  {
    |ids| == |sets| == |servers| &&
    forall j :: 0 <= j < |servers| ==> servers[j].shardId == ids[j] && servers[j].localShards == sets[j]
  }

  /** The round-robin loop: shard s goes to servers[s mod n]. */
  method AssignRoundRobin(id: int, numShards: nat, servers: seq<ServerState>)
    requires numShards == 0 || |servers| > 0
    requires Distinct(servers)
    modifies set j | 0 <= j < |servers| :: servers[j]
    ensures forall j :: 0 <= j < |servers| ==>
      servers[j].localShards == old(servers[j].localShards) + RoundRobinTasks(id, numShards, |servers|, j)
    ensures forall j :: 0 <= j < |servers| && j < numShards ==> LastShardOf(servers[j].shardId, j, numShards, |servers|)
    ensures forall j :: 0 <= j < |servers| && numShards <= j ==> servers[j].shardId == old(servers[j].shardId)
  {
    if numShards == 0 {
      forall j | 0 <= j < |servers|
        ensures RoundRobinTasks(id, numShards, |servers|, j) == {}
      {
      }
      return;
    }
    var n := |servers|;
    ghost var initial := seq(n, j requires 0 <= j < n reads servers => servers[j].localShards);
    ghost var initialIds := seq(n, j requires 0 <= j < n reads servers => servers[j].shardId);
    ghost var ids, sets := initialIds, initial;
    forall j | 0 <= j < n
      ensures RoundRobinTasks(id, 0, n, j) == {}
    {
    }
    var serverIdx := 0;
    var shard := 0;
    while shard < numShards
      invariant shard <= numShards
      invariant serverIdx == shard % n
      invariant Mirrors(servers, ids, sets)
      invariant LastShards(ids, initialIds, shard) && HoldsRoundRobin(sets, initial, id, shard)
    {
      RoundRobinAdvance(ids, initialIds, sets, initial, id, shard, serverIdx);
      var server := servers[serverIdx];
      server.shardId := shard;
      server.localShards := server.localShards + {TaskId(id, shard)};
      ids, sets := ids[serverIdx := shard], sets[serverIdx := sets[serverIdx] + {TaskId(id, shard)}];
      serverIdx := (serverIdx + 1) % n;
      shard := shard + 1;
    }
  }

  // ---------------------------------------------------------------------
  // The assignment message

  ghost function ShardSets(servers: seq<ServerState>): (r: seq<set<TaskId>>)
    reads set j | 0 <= j < |servers| :: servers[j]
    ensures |r| == |servers|
  {
    seq(|servers|, j requires 0 <= j < |servers| reads servers => servers[j].localShards)
  }

  /** The entries one server contributes to the message. */
  function ServerAssignments(serverId: int, tasks: set<TaskId>): (r: set<ShardAssignment>)
    ensures forall a :: a in r <==> a.newWorker == serverId && TaskId(a.table, a.shard) in tasks
  {
    set task | task in tasks :: ShardAssignment(serverId, task.table, task.shard)
  }

  /** The entries of the first m servers. */
  function AssignmentsBelow(ids: seq<int>, sets: seq<set<TaskId>>, m: nat): set<ShardAssignment>
    requires m <= |ids| == |sets|
  {
    if m == 0 then {} else AssignmentsBelow(ids, sets, m - 1) + ServerAssignments(ids[m - 1], sets[m - 1])
  }

  /** How many tasks the first m servers hold. */
  function TaskCount(sets: seq<set<TaskId>>, m: nat): nat
    requires m <= |sets|
  {
    if m == 0 then 0 else TaskCount(sets, m - 1) + |sets[m - 1]|
  }

  /** The owner of shard s of `table` once the first m servers are walked:
      the last of them that holds the task, or `prior` if none does. */
  function OwnerAfter(ids: seq<int>, sets: seq<set<TaskId>>, m: nat, table: int, s: int, prior: int): int
    requires m <= |ids| == |sets|
  {
    if m == 0 then prior
    else if TaskId(table, s) in sets[m - 1] then ids[m - 1]
    else OwnerAfter(ids, sets, m - 1, table, s, prior)
  }

  /** Every task a server holds belongs to table `t` and names one of its
      shards. The first half is the CHECK that the task's table exists; the
      second is not checked by the code, and holds because round robin deals
      only shards below num_shards. */
  ghost predicate TasksOf(servers: seq<ServerState>, t: TypedGlobalTable<int, FloatVector>)
    reads set j | 0 <= j < |servers| :: servers[j]
    reads t
  {
    forall j, task :: 0 <= j < |servers| && task in servers[j].localShards ==>
      task.table == t.desc.tableId && 0 <= task.shard < t.desc.numShards
  }

  /** The entries emitted so far for one server: those before it and one
      per task in `done`. */
  ghost predicate Emitted(req: seq<ShardAssignment>, req0: seq<ShardAssignment>, serverId: int, done: set<TaskId>)
  {
    (forall a :: a in req <==> a in req0 || a in ServerAssignments(serverId, done)) &&
    |req| == |req0| + |done|
  }

  lemma EmitStep(req: seq<ShardAssignment>, req0: seq<ShardAssignment>, serverId: int, done: set<TaskId>, task: TaskId)
    requires Emitted(req, req0, serverId, done) && task !in done
    ensures Emitted(req + [ShardAssignment(serverId, task.table, task.shard)], req0, serverId, done + {task})
  {
  }

  /** The owners of `table`'s shards: those of the tasks in `done` are
      `serverId`, the others as in `initial`. */
  ghost predicate OwnersFrom(p: seq<PartitionInfo>, initial: seq<PartitionInfo>, table: int, done: set<TaskId>, serverId: int)
  {
    |p| == |initial| &&
    forall s :: 0 <= s < |p| ==> p[s].owner == (if TaskId(table, s) in done then serverId else initial[s].owner)
  }

  lemma OwnerStep(p: seq<PartitionInfo>, initial: seq<PartitionInfo>, table: int, done: set<TaskId>, serverId: int, task: TaskId)
    requires OwnersFrom(p, initial, table, done, serverId)
    requires task.table == table && 0 <= task.shard < |p|
    ensures OwnersFrom(p[task.shard := PartitionInfo(serverId)], initial, table, done + {task}, serverId)
  {
  }

  /** The inner loop of the message build, over one server's tasks in
      whatever order the set yields them. */
  method EmitServer(server: ServerState, t: TypedGlobalTable<int, FloatVector>, req0: seq<ShardAssignment>)
      returns (req: seq<ShardAssignment>)
    requires t.Valid()
    requires forall task :: task in server.localShards ==>
      task.table == t.desc.tableId && 0 <= task.shard < t.desc.numShards
    modifies t
    ensures t.Valid()
    ensures forall a :: a in req <==> a in req0 || a in ServerAssignments(server.serverId, server.localShards)
    ensures |req| == |req0| + |server.localShards|
    ensures forall s :: 0 <= s < t.desc.numShards ==>
      t.Owner(s) == (if TaskId(t.desc.tableId, s) in server.localShards then server.serverId else old(t.Owner(s)))
    ensures t.workerId == old(t.workerId) && t.partitions == old(t.partitions)
    ensures t.pendingWrites == old(t.pendingWrites) && t.trace == old(t.trace)
  {
    req := req0;
    var remaining := server.localShards;
    ghost var done: set<TaskId> := {};
    ghost var initial := t.partinfo;
    while remaining != {}
      invariant t.Valid() && done !! remaining && done + remaining == server.localShards
      invariant Emitted(req, req0, server.serverId, done)
      invariant OwnersFrom(t.partinfo, initial, t.desc.tableId, done, server.serverId)
      invariant t.workerId == old(t.workerId) && t.partitions == old(t.partitions)
      invariant t.pendingWrites == old(t.pendingWrites) && t.trace == old(t.trace)
      decreases |remaining|
    {
      var task :| task in remaining;
      EmitStep(req, req0, server.serverId, done, task);
      OwnerStep(t.partinfo, initial, t.desc.tableId, done, server.serverId, task);
      req := req + [ShardAssignment(server.serverId, task.table, task.shard)];
      t.SetOwner(task.shard, server.serverId);
      remaining := remaining - {task};
      done := done + {task};
    }
  }

  /** The message-building loop: every task of every server becomes one
      entry (new owner, table, shard) and sets the owner of that shard in
      the table; a shard held by several servers ends owned by the last. */
  method BuildAssignment(servers: seq<ServerState>, t: TypedGlobalTable<int, FloatVector>)
      returns (req: seq<ShardAssignment>)
    requires t.Valid() && TasksOf(servers, t)
    modifies t
    ensures t.Valid()
    ensures forall a :: a in req <==> a in AssignmentsBelow(Ids(servers), ShardSets(servers), |servers|)
    ensures |req| == TaskCount(ShardSets(servers), |servers|)
    ensures forall s :: 0 <= s < t.desc.numShards ==>
      t.Owner(s) == OwnerAfter(Ids(servers), ShardSets(servers), |servers|, t.desc.tableId, s, old(t.Owner(s)))
    ensures t.workerId == old(t.workerId) && t.partitions == old(t.partitions)
    ensures t.pendingWrites == old(t.pendingWrites) && t.trace == old(t.trace)
  {
    ghost var ids, sets := Ids(servers), ShardSets(servers);
    ghost var initial := t.partinfo;
    req := [];
    var i := 0;
    while i < |servers|
      invariant i <= |servers| && t.Valid()
      invariant forall a :: a in req <==> a in AssignmentsBelow(ids, sets, i)
      invariant |req| == TaskCount(sets, i)
      invariant forall s :: 0 <= s < t.desc.numShards ==>
        t.Owner(s) == OwnerAfter(ids, sets, i, t.desc.tableId, s, initial[s].owner)
      invariant t.workerId == old(t.workerId) && t.partitions == old(t.partitions)
      invariant t.pendingWrites == old(t.pendingWrites) && t.trace == old(t.trace)
    {
      req := EmitServer(servers[i], t, req);
      i := i + 1;
    }
  }

  // ---------------------------------------------------------------------
  // What round robin followed by the message build amounts to

  /** Server j holds exactly the round-robin shards of `table`. */
  ghost predicate RoundRobinSets(sets: seq<set<TaskId>>, table: int, numShards: nat)
    requires |sets| > 0
  {
    forall j :: 0 <= j < |sets| ==> sets[j] == RoundRobinTasks(table, numShards, |sets|, j)
  }

  lemma {:induction false} OwnerAfterRoundRobin(ids: seq<int>, sets: seq<set<TaskId>>, m: nat, table: int,
                                                numShards: nat, s: int, prior: int)
    requires 0 < |ids| == |sets| && m <= |ids| && RoundRobinSets(sets, table, numShards)
    requires 0 <= s < numShards
    ensures OwnerAfter(ids, sets, m, table, s, prior) == if s % |ids| < m then ids[s % |ids|] else prior
    decreases m
  {
    if m > 0 {
      OwnerAfterRoundRobin(ids, sets, m - 1, table, numShards, s, prior);
    }
  }

  lemma {:induction false} AssignmentsRoundRobin(ids: seq<int>, sets: seq<set<TaskId>>, m: nat, table: int, numShards: nat)
    requires 0 < |ids| == |sets| && m <= |ids| && RoundRobinSets(sets, table, numShards)
    ensures forall a :: a in AssignmentsBelow(ids, sets, m) <==>
      a.table == table && 0 <= a.shard < numShards && a.shard % |ids| < m && a.newWorker == ids[a.shard % |ids|]
    decreases m
  {
    if m > 0 {
      AssignmentsRoundRobin(ids, sets, m - 1, table, numShards);
    }
  }

  /** The number of round-robin tasks of servers 0 .. m-1. */
  function RoundRobinCount(table: int, numShards: nat, n: nat, m: nat): nat
    requires n > 0
  {
    if m == 0 then 0 else RoundRobinCount(table, numShards, n, m - 1) + |RoundRobinTasks(table, numShards, n, m - 1)|
  }

  lemma {:induction false} RoundRobinCountStep(table: int, numShards: nat, n: nat, m: nat)
    requires n > 0
    ensures RoundRobinCount(table, numShards + 1, n, m)
         == RoundRobinCount(table, numShards, n, m) + (if numShards % n < m then 1 else 0)
    decreases m
  {
    var r := numShards % n;
    if m > 0 {
      RoundRobinCountStep(table, numShards, n, m - 1);
      RoundRobinStep(table, numShards, n, m - 1);
      var before, after := RoundRobinTasks(table, numShards, n, m - 1), RoundRobinTasks(table, numShards + 1, n, m - 1);
      var c, c' := RoundRobinCount(table, numShards, n, m - 1), RoundRobinCount(table, numShards + 1, n, m - 1);
      assert c' == c + (if r < m - 1 then 1 else 0);
      if r == m - 1 {
        assert TaskId(table, numShards) !in before;
        assert after == before + {TaskId(table, numShards)};
        assert c' + |after| == c + |before| + 1;
      } else {
        assert after == before;
        assert c' + |after| == c + |before| + (if r < m then 1 else 0);
      }
    }
  }

  /** Round robin hands out every shard exactly once. */
  lemma {:induction false} RoundRobinCountAll(table: int, numShards: nat, n: nat)
    requires n > 0
    ensures RoundRobinCount(table, numShards, n, n) == numShards
    decreases numShards
  {
    if numShards == 0 {
      EmptyCount(table, n, n);
    } else {
      var k := numShards - 1;
      RoundRobinCountAll(table, k, n);
      RoundRobinCountStep(table, k, n, n);
      var r := k % n;
      assert r < n;
      assert RoundRobinCount(table, k + 1, n, n) == k + 1;
    }
  }

  lemma {:induction false} EmptyCount(table: int, n: nat, m: nat)
    requires n > 0
    ensures RoundRobinCount(table, 0, n, m) == 0
    decreases m
  {
    if m > 0 {
      EmptyCount(table, n, m - 1);
      assert RoundRobinTasks(table, 0, n, m - 1) == {};
    }
  }

  lemma {:induction false} TaskCountRoundRobin(sets: seq<set<TaskId>>, m: nat, table: int, numShards: nat)
    requires 0 < |sets| && m <= |sets| && RoundRobinSets(sets, table, numShards)
    ensures TaskCount(sets, m) == RoundRobinCount(table, numShards, |sets|, m)
    decreases m
  {
    if m > 0 {
      TaskCountRoundRobin(sets, m - 1, table, numShards);
    }
  }

  /** With more servers than shards, the surplus servers get nothing. */
  lemma SurplusServersGetNothing(table: int, numShards: nat, n: nat, j: int)
    requires 0 < n && numShards <= j < n
    ensures RoundRobinTasks(table, numShards, n, j) == {}
  {
    forall s | 0 <= s < numShards
      ensures s % n != j
    {
      ModBelow(s, n);
    }
  }

  /** Four shards over two servers: the first gets shards 0 and 2, the
      second 1 and 3. */
  lemma FourShardsTwoServers(table: int)
    ensures RoundRobinTasks(table, 4, 2, 0) == {TaskId(table, 0), TaskId(table, 2)}
    ensures RoundRobinTasks(table, 4, 2, 1) == {TaskId(table, 1), TaskId(table, 3)}
  {
    assert TaskId(table, 0) in RoundRobinTasks(table, 4, 2, 0);
    assert TaskId(table, 2) in RoundRobinTasks(table, 4, 2, 0);
    assert TaskId(table, 1) in RoundRobinTasks(table, 4, 2, 1);
    assert TaskId(table, 3) in RoundRobinTasks(table, 4, 2, 1);
  }

  /** What the message build yields after round robin: entries (server
      s mod n, table, s) for each shard s, one per shard, and shard s owned by
      server s mod n. */
  lemma RoundRobinMessage(ids: seq<int>, sets: seq<set<TaskId>>, table: int, numShards: nat)
    requires 0 < |ids| == |sets| && RoundRobinSets(sets, table, numShards)
    ensures forall a :: a in AssignmentsBelow(ids, sets, |ids|) <==>
      a.table == table && 0 <= a.shard < numShards && a.newWorker == ids[a.shard % |ids|]
    ensures TaskCount(sets, |sets|) == numShards
    ensures forall s, prior :: 0 <= s < numShards ==> OwnerAfter(ids, sets, |ids|, table, s, prior) == ids[s % |ids|]
  {
    AssignmentsRoundRobin(ids, sets, |ids|, table, numShards);
    TaskCountRoundRobin(sets, |sets|, table, numShards);
    RoundRobinCountAll(table, numShards, |sets|);
    forall s, prior | 0 <= s < numShards
      ensures OwnerAfter(ids, sets, |ids|, table, s, prior) == ids[s % |ids|]
    {
      OwnerAfterRoundRobin(ids, sets, |ids|, table, numShards, s, prior);
    }
  }

  /** coordinator_assign_tables for table `id` (the table `t`): register the
      table servers, make the coordinator the table's worker, deal the shards
      round robin and build the assignment message. Shard s ends owned by the
      (s mod n)-th table server, and the message has one entry per shard. */
  method CoordinatorAssignTables(id: int, ctx: GlobalContext, networkId: int, t: TypedGlobalTable<int, FloatVector>)
      returns (servers: seq<ServerState>, req: seq<ShardAssignment>)
    requires t.Valid() && t.desc.tableId == id
    requires t.desc.numShards == 0 || |TableServerIds(ctx)| > 0
    modifies t
    ensures Ids(servers) == TableServerIds(ctx)
    ensures t.Valid() && t.workerId == networkId
    ensures forall j :: 0 <= j < |servers| ==> servers[j].localShards == RoundRobinTasks(id, t.desc.numShards, |servers|, j)
    ensures forall j :: 0 <= j < |servers| && j < t.desc.numShards ==>
      LastShardOf(servers[j].shardId, j, t.desc.numShards, |servers|)
    ensures forall s :: 0 <= s < t.desc.numShards ==> t.Owner(s) == TableServerIds(ctx)[s % |servers|]
    ensures |req| == t.desc.numShards
    ensures forall a :: a in req <==>
      a.table == id && 0 <= a.shard < t.desc.numShards && a.newWorker == TableServerIds(ctx)[a.shard % |servers|]
    ensures t.partitions == old(t.partitions) && t.pendingWrites == old(t.pendingWrites) && t.trace == old(t.trace)
  {
    servers := RegisterServers(ctx);
    t.workerId := networkId;
    var numShards := t.desc.numShards;
    AssignRoundRobin(id, numShards, servers);
    if |servers| == 0 {
      req := [];
      return;
    }
    ghost var ids, sets := Ids(servers), ShardSets(servers);
    assert RoundRobinSets(sets, id, numShards);
    req := BuildAssignment(servers, t);
    RoundRobinMessage(ids, sets, id, numShards);
  }

  /** The coordinator's sequence: assign the table, then load it. Loading
      keeps the round-robin owners, and every key below the key count holds
      its chunk's vector. */
  method AssignThenLoad(id: int, ctx: GlobalContext, networkId: int, t: TypedGlobalTable<int, FloatVector>, threshold: nat)
      returns (servers: seq<ServerState>, req: seq<ShardAssignment>, numKeys: int)
    requires t.Valid() && t.desc.tableId == id && t.dispatcher.held == {}
    requires t.desc.numShards == 0 || |TableServerIds(ctx)| > 0
    requires threshold > 0 && forall k :: 0 <= k ==> t.GetShard(k).Some?
    modifies t, t.dispatcher
    ensures Ids(servers) == TableServerIds(ctx) && t.Valid() && t.workerId == networkId
    ensures forall s :: 0 <= s < t.desc.numShards ==> t.Owner(s) == TableServerIds(ctx)[s % |servers|]
    ensures numKeys == |AllChunks(Sizes, threshold)| && Stored(t, AllChunks(Sizes, threshold))
  {
    servers, req := CoordinatorAssignTables(id, ctx, networkId, t);
    numKeys := CoordinatorLoadData(t, threshold);
  }
}
