/** Model of the typed global table of include/core/global-table.h: the
    routing layer that sends every get/put/update either to a local
    partition (guarded by the request dispatcher's per-key registry) or to
    the remote owner of the shard.

    The remote primitives (SendUpdates, get_remote, async_get_remote,
    async_get_remote_collect) are only declared in the header; the model
    records each call in `trace`, and what the remote side answers is passed
    in as a parameter. */
module Tables {

  type Bytes = seq<bv8>

  datatype Option<T> = None | Some(value: T)

  /** A marshaller between values and their wire encoding. */
  datatype Codec<!T> = Codec(encode: T -> Bytes, decode: Bytes -> T)

  /** The codec's decoder inverts its encoder. */
  ghost predicate RoundTrips<T(!new)>(c: Codec<T>)
  {
    forall x :: c.decode(c.encode(x)) == x
  }

  /** The part of a table descriptor the typed table uses: the sharder is
      called with the key and the number of shards, `accum` merges an update
      into the stored value. */
  datatype TableDescriptor<!K, !V> = TableDescriptor(
    tableId: int,
    numShards: nat,
    sharder: (K, nat) -> int,
    keyMarshal: Codec<K>,
    valueMarshal: Codec<V>,
    accum: (V, V) -> V)

  /** Ownership of one shard; -1 means not yet assigned. */
  datatype PartitionInfo = PartitionInfo(owner: int)

  const Unassigned: int := -1

  /** The in-memory store of one shard. Its descriptor is a copy of the
      table's with `shard` set, so only the shard index is kept. */
  datatype LocalPartition<K(!new), V> = LocalPartition(shard: nat, data: map<K, V>)
  {
    /** Stores v under k and leaves every other key as it was. */
    function Put(k: K, v: V): (r: LocalPartition<K, V>)
      ensures r.shard == shard && r.Lookup(k) == Some(v)
      ensures forall k' :: k' != k ==> r.Lookup(k') == Lookup(k')
    {
      LocalPartition(shard, data[k := v])
    }

    /** Merge-on-write: an existing value is combined with the update. */
    function Update(k: K, v: V, accum: (V, V) -> V): (r: LocalPartition<K, V>)
      ensures r.shard == shard
      ensures r.Lookup(k) == match Lookup(k) case None => Some(v) case Some(cur) => Some(accum(cur, v))
      ensures forall k' :: k' != k ==> r.Lookup(k') == Lookup(k')
    {
      LocalPartition(shard, data[k := if k in data then accum(data[k], v) else v])
    }

    function Lookup(k: K): Option<V>
    {
      if k in data then Some(data[k]) else None
    }
  }

  /** What create_local returns: a fresh, empty partition for `shard`. */
  function CreateLocal<K(!new), V>(shard: nat): (r: LocalPartition<K, V>)
    ensures r.shard == shard && forall k :: r.Lookup(k) == None
  {
    LocalPartition(shard, map[])
  }

  /** What get_remote leaves behind: whether the owner had the key and the
      encoded value it sent. */
  datatype Reply = Reply(found: bool, value: Bytes)

  /** One reply collected by async_get_remote_collect. */
  datatype KeyValue = KeyValue(key: Bytes, value: Bytes)

  /** The externally visible steps of a table operation, in order. */
  datatype Effect =
    | Acquire(key: Bytes)          // sync_local_put / sync_local_get registered the key
    | EventComplete(key: Bytes)    // event_complete released it
    | PartitionWrite(shard: nat)
    | PartitionRead(shard: nat)
    | Flush                        // SendUpdates()
    | FetchRemote(shard: nat, key: Bytes)  // get_remote
    | AsyncFetch(shard: nat, key: Bytes)   // async_get_remote
    | CollectRemote                // async_get_remote_collect

  /** How a table call ends: it completes with a value, it would wait in the
      dispatcher for another holder of the key (nothing has happened yet), or
      a contract check aborts the process. */
  datatype Outcome<T> = Done(value: T) | Blocked | Fatal

  /** What async_get_collect hands back through its pointer arguments. */
  datatype Collected<K, V> = NotReady | Ready(key: K, value: Option<V>)

  /** The request dispatcher's registry of keys that a local synchronous
      access currently holds. */
  class RequestDispatcher {
    var held: set<Bytes>

    constructor ()
      ensures held == {}
    {
      held := {};
    }

    /** sync_local_put / sync_local_get: registers `key` when no one holds
        it; `ok` is false when the caller would have to wait (or, for the
        polling variant, when the access is not ready). */
    method Register(key: Bytes) returns (ok: bool)
      modifies this
      ensures ok <==> key !in old(held)
      ensures held == old(held) + {key}
    {
      ok := key !in held;
      held := held + {key};
    }

    /** event_complete: releases `key`. */
    method Release(key: Bytes)
      modifies this
      ensures held == old(held) - {key}
    {
      held := held - {key};
    }
  }

  class TypedGlobalTable<K(==,!new), V> {
    const desc: TableDescriptor<K, V>
    const dispatcher: RequestDispatcher
    var workerId: int
    var partinfo: seq<PartitionInfo>
    var partitions: seq<LocalPartition<K, V>>
    var pendingWrites: int
    var trace: seq<Effect>

    ghost predicate Valid()
      reads this
    {
      && |partinfo| == desc.numShards
      && |partitions| == desc.numShards
      && forall i :: 0 <= i < |partitions| ==> partitions[i].shard == i
    }

    /** The table after `new TypedGlobalTable` and Init(desc): every shard is
        unassigned and has a fresh local partition for that shard. */
    constructor Init(desc: TableDescriptor<K, V>, workerId: int, dispatcher: RequestDispatcher)
      ensures Valid()
      ensures this.desc == desc && this.dispatcher == dispatcher && this.workerId == workerId
      ensures forall s :: 0 <= s < desc.numShards ==> Owner(s) == Unassigned
      ensures forall s :: 0 <= s < desc.numShards ==> partitions[s].data == map[]
      ensures pendingWrites == 0 && trace == []
    {
      this.desc := desc;
      this.dispatcher := dispatcher;
      this.workerId := workerId;
      partinfo := seq(desc.numShards, _ => PartitionInfo(Unassigned));
      var parts: seq<LocalPartition<K, V>> := [];
      var i := 0;
      while i < desc.numShards
        invariant i <= desc.numShards && |parts| == i
        invariant forall j :: 0 <= j < i ==> parts[j] == CreateLocal(j)
      {
        parts := parts + [CreateLocal(i)];
        i := i + 1;
      }
      partitions := parts;
      pendingWrites := 0;
      trace := [];
    }

    /** owner(shard): the owner recorded in the shard's partition info, -1
        while unassigned. */
    function Owner(shard: nat): (r: int)
      reads this
      requires Valid() && shard < desc.numShards
      ensures r == partinfo[shard].owner
    {
      partinfo[shard].owner
    }

    /** is_local_shard: the shard is owned by this worker. */
    predicate IsLocalShard(shard: nat)
      reads this
      requires Valid() && shard < desc.numShards
      ensures IsLocalShard(shard) <==> Owner(shard) == workerId
    {
      Owner(shard) == workerId
    }

    /** get_shard: the sharder's answer, checked to lie in [0, numShards);
        None stands for the failed check, which aborts the caller. */
    function GetShard(k: K): (r: Option<nat>)
      ensures r.Some? <==> 0 <= desc.sharder(k, desc.numShards) < desc.numShards
      ensures r.Some? ==> r.value == desc.sharder(k, desc.numShards) && r.value < desc.numShards
    {
      var shard := desc.sharder(k, desc.numShards);
      if 0 <= shard < desc.numShards then Some(shard) else None
    }

    function KeyBytes(k: K): Bytes
    {
      desc.keyMarshal.encode(k)
    }

    /** get_local: reads the partition of k's shard, whether or not it is
        owned here. */
    function GetLocal(k: K): (r: Option<V>)
      reads this
      requires Valid() && GetShard(k).Some?
      ensures r.Some? <==> k in partitions[GetShard(k).value].data
      ensures r.Some? ==> r.value == partitions[GetShard(k).value].data[k]
    {
      partitions[GetShard(k).value].Lookup(k)
    }

    /** `get_partition_info(shard)->owner = owner`, as the assignment does. */
    method SetOwner(shard: nat, owner: int)
      requires Valid() && shard < desc.numShards
      modifies this
      ensures Valid()
      ensures partinfo == old(partinfo)[shard := PartitionInfo(owner)]
      ensures workerId == old(workerId) && partitions == old(partitions)
      ensures pendingWrites == old(pendingWrites) && trace == old(trace)
    {
      partinfo := partinfo[shard := PartitionInfo(owner)];
    }

    method SendUpdates()
      modifies this
      ensures trace == old(trace) + [Flush]
      ensures partinfo == old(partinfo) && partitions == old(partitions)
      ensures workerId == old(workerId) && pendingWrites == old(pendingWrites)
    {
      trace := trace + [Flush];
    }

    method GetRemote(shard: nat, key: Bytes, reply: Reply) returns (r: Reply)
      modifies this
      ensures r == reply
      ensures trace == old(trace) + [FetchRemote(shard, key)]
      ensures partinfo == old(partinfo) && partitions == old(partitions)
      ensures workerId == old(workerId) && pendingWrites == old(pendingWrites)
    {
      trace := trace + [FetchRemote(shard, key)];
      r := reply;
    }

    /** put: the pair is stored in the partition of k's shard on this host in
        every case; a local shard brackets the write with one registration
        and one event_complete on the encoded key, a remote shard flushes. */
    method Put(k: K, v: V) returns (o: Outcome<()>)
      requires Valid()
      modifies this, dispatcher
      ensures Valid()
      ensures o == Fatal <==> GetShard(k).None?
      ensures o == Blocked <==>
        GetShard(k).Some? && IsLocalShard(GetShard(k).value) && KeyBytes(k) in old(dispatcher.held)
      ensures o.Done? ==>
        var s := GetShard(k).value;
        && partitions == old(partitions)[s := old(partitions[s]).Put(k, v)]
        && trace == old(trace) + (if IsLocalShard(s)
                                  then [Acquire(KeyBytes(k)), PartitionWrite(s), EventComplete(KeyBytes(k))]
                                  else [PartitionWrite(s), Flush])
      ensures !o.Done? ==> partitions == old(partitions) && trace == old(trace)
      ensures dispatcher.held == old(dispatcher.held)
      ensures partinfo == old(partinfo) && workerId == old(workerId) && pendingWrites == old(pendingWrites)
    {
      var shard := GetShard(k);
      if shard.None? {
        return Fatal;
      }
      var s := shard.value;
      var key := KeyBytes(k);
      var local := IsLocalShard(s);
      if local {
        var ok := dispatcher.Register(key);
        if !ok {
          return Blocked;
        }
        trace := trace + [Acquire(key)];
      }
      partitions := partitions[s := partitions[s].Put(k, v)];
      trace := trace + [PartitionWrite(s)];
      if local {
        dispatcher.Release(key);
        trace := trace + [EventComplete(key)];
      }
      if !local {
        SendUpdates();
      }
      return Done(());
    }

    /** update: as put, except that the partition merges the value into an
        existing one with the descriptor's accumulator. */
    method Update(k: K, v: V) returns (o: Outcome<()>)
      requires Valid()
      modifies this, dispatcher
      ensures Valid()
      ensures o == Fatal <==> GetShard(k).None?
      ensures o == Blocked <==>
        GetShard(k).Some? && IsLocalShard(GetShard(k).value) && KeyBytes(k) in old(dispatcher.held)
      ensures o.Done? ==>
        var s := GetShard(k).value;
        && partitions == old(partitions)[s := old(partitions[s]).Update(k, v, desc.accum)]
        && trace == old(trace) + (if IsLocalShard(s)
                                  then [Acquire(KeyBytes(k)), PartitionWrite(s), EventComplete(KeyBytes(k))]
                                  else [PartitionWrite(s), Flush])
      ensures !o.Done? ==> partitions == old(partitions) && trace == old(trace)
      ensures dispatcher.held == old(dispatcher.held)
      ensures partinfo == old(partinfo) && workerId == old(workerId) && pendingWrites == old(pendingWrites)
    {
      var shard := GetShard(k);
      if shard.None? {
        return Fatal;
      }
      var s := shard.value;
      var key := KeyBytes(k);
      var local := IsLocalShard(s);
      if local {
        var ok := dispatcher.Register(key);
        if !ok {
          return Blocked;
        }
        trace := trace + [Acquire(key)];
      }
      partitions := partitions[s := partitions[s].Update(k, v, desc.accum)];
      trace := trace + [PartitionWrite(s)];
      if local {
        dispatcher.Release(key);
        trace := trace + [EventComplete(key)];
      }
      if !local {
        SendUpdates();
      }
      return Done(());
    }

    /** get: a local shard is read between a registration and an
        event_complete; a remote shard is fetched from its owner and the
        reply decoded, whatever get_remote said about finding it. */
    method Get(k: K, reply: Reply) returns (o: Outcome<Option<V>>)
      requires Valid()
      modifies this, dispatcher
      ensures Valid()
      ensures o == Fatal <==> GetShard(k).None?
      ensures o == Blocked <==>
        GetShard(k).Some? && IsLocalShard(GetShard(k).value) && KeyBytes(k) in old(dispatcher.held)
      ensures o.Done? && IsLocalShard(GetShard(k).value) ==>
        && o.value == GetLocal(k)
        && trace == old(trace) + [Acquire(KeyBytes(k)), PartitionRead(GetShard(k).value), EventComplete(KeyBytes(k))]
      ensures o.Done? && !IsLocalShard(GetShard(k).value) ==>
        && o.value == Some(desc.valueMarshal.decode(reply.value))
        && trace == old(trace) + [FetchRemote(GetShard(k).value, KeyBytes(k))]
      ensures !o.Done? ==> trace == old(trace)
      ensures dispatcher.held == old(dispatcher.held)
      ensures partitions == old(partitions) && partinfo == old(partinfo)
      ensures workerId == old(workerId) && pendingWrites == old(pendingWrites)
    {
      var shard := GetShard(k);
      if shard.None? {
        return Fatal;
      }
      var s := shard.value;
      var key := KeyBytes(k);
      if IsLocalShard(s) {
        var ok := dispatcher.Register(key);
        if !ok {
          return Blocked;
        }
        trace := trace + [Acquire(key)];
        var val := GetLocal(k);
        trace := trace + [PartitionRead(s)];
        dispatcher.Release(key);
        trace := trace + [EventComplete(key)];
        return Done(val);
      }
      var r := GetRemote(s, key, reply);
      return Done(Some(desc.valueMarshal.decode(r.value)));
    }

    /** async_get: never has a value to hand back; for a remote shard it
        only sends the request. */
    method AsyncGet(k: K) returns (o: Outcome<bool>)
      requires Valid()
      modifies this
      ensures Valid()
      ensures o == Fatal <==> GetShard(k).None?
      ensures o != Blocked && o != Done(true)
      ensures o.Done? && IsLocalShard(GetShard(k).value) ==> trace == old(trace)
      ensures o.Done? && !IsLocalShard(GetShard(k).value) ==>
        trace == old(trace) + [AsyncFetch(GetShard(k).value, KeyBytes(k))]
      ensures o == Fatal ==> trace == old(trace)
      ensures partitions == old(partitions) && partinfo == old(partinfo)
      ensures workerId == old(workerId) && pendingWrites == old(pendingWrites)
    {
      var shard := GetShard(k);
      if shard.None? {
        return Fatal;
      }
      var s := shard.value;
      if IsLocalShard(s) {
        return Done(false);
      }
      trace := trace + [AsyncFetch(s, KeyBytes(k))];
      return Done(false);
    }

    /** async_get_collect: the input key's shard decides the path. Locally the
        poll succeeds exactly when the key can be registered, in which case
        the value is read and the key released at once; remotely the next
        collected reply, if any, is decoded. */
    method AsyncGetCollect(k: K, collected: Option<KeyValue>) returns (o: Outcome<Collected<K, V>>)
      requires Valid()
      modifies this, dispatcher
      ensures Valid()
      ensures o == Fatal <==> GetShard(k).None?
      ensures o != Blocked
      ensures o.Done? && IsLocalShard(GetShard(k).value) ==>
        if KeyBytes(k) !in old(dispatcher.held) then
          && o.value == Ready(k, GetLocal(k))
          && trace == old(trace) + [Acquire(KeyBytes(k)), PartitionRead(GetShard(k).value), EventComplete(KeyBytes(k))]
        else
          o.value == NotReady && trace == old(trace)
      ensures o.Done? && !IsLocalShard(GetShard(k).value) ==>
        && trace == old(trace) + [CollectRemote]
        && o.value == match collected
                      case None => NotReady
                      case Some(kv) => Ready(desc.keyMarshal.decode(kv.key), Some(desc.valueMarshal.decode(kv.value)))
      ensures o == Fatal ==> trace == old(trace)
      ensures dispatcher.held == old(dispatcher.held)
      ensures partitions == old(partitions) && partinfo == old(partinfo)
      ensures workerId == old(workerId) && pendingWrites == old(pendingWrites)
    {
      var shard := GetShard(k);
      if shard.None? {
        return Fatal;
      }
      var s := shard.value;
      if IsLocalShard(s) {
        var key := KeyBytes(k);
        var ok := dispatcher.Register(key);
        if ok {
          trace := trace + [Acquire(key)];
          var val := GetLocal(k);
          trace := trace + [PartitionRead(s)];
          dispatcher.Release(key);
          trace := trace + [EventComplete(key)];
          return Done(Ready(k, val));
        }
        return Done(NotReady);
      }
      trace := trace + [CollectRemote];
      match collected
      case None =>
        return Done(NotReady);
      case Some(kv) =>
        return Done(Ready(desc.keyMarshal.decode(kv.key), Some(desc.valueMarshal.decode(kv.value))));
    }

    /** contains: partition membership for a local shard; for a remote shard,
        whether get_remote found the key. */
    method Contains(k: K, reply: Reply) returns (o: Outcome<bool>)
      requires Valid()
      modifies this
      ensures Valid()
      ensures o == Fatal <==> GetShard(k).None?
      ensures o != Blocked
      ensures o.Done? && IsLocalShard(GetShard(k).value) ==>
        && (o.value <==> k in partitions[GetShard(k).value].data)
        && trace == old(trace) + [PartitionRead(GetShard(k).value)]
      ensures o.Done? && !IsLocalShard(GetShard(k).value) ==>
        && o.value == reply.found
        && trace == old(trace) + [FetchRemote(GetShard(k).value, KeyBytes(k))]
      ensures o == Fatal ==> trace == old(trace)
      ensures partitions == old(partitions) && partinfo == old(partinfo)
      ensures workerId == old(workerId) && pendingWrites == old(pendingWrites)
    {
      var shard := GetShard(k);
      if shard.None? {
        return Fatal;
      }
      var s := shard.value;
      if IsLocalShard(s) {
        trace := trace + [PartitionRead(s)];
        return Done(k in partitions[s].data);
      }
      var r := GetRemote(s, KeyBytes(k), reply);
      return Done(r.found);
    }

    /** remove is not implemented and always aborts. */
    method Remove(k: K) returns (o: Outcome<()>)
      ensures o == Fatal
    {
      return Fatal;
    }
  }

  /** A local put followed by a get of the same key on the same node returns
      the value just put. */
  method LocalPutThenGet<K(==,!new), V>(t: TypedGlobalTable<K, V>, k: K, v: V, reply: Reply)
    returns (o: Outcome<Option<V>>)
    requires t.Valid() && t.GetShard(k).Some? && t.IsLocalShard(t.GetShard(k).value)
    requires t.KeyBytes(k) !in t.dispatcher.held
    modifies t, t.dispatcher
    ensures o == Done(Some(v))
  {
    var p := t.Put(k, v);
    o := t.Get(k, reply);
  }

  /** contains is false for a key never written to a fresh local partition
      and true right after a local put of it. */
  method ContainsAfterLocalPut<K(==,!new), V>(t: TypedGlobalTable<K, V>, k: K, v: V, reply: Reply)
    returns (before: Outcome<bool>, after: Outcome<bool>)
    requires t.Valid() && t.GetShard(k).Some? && t.IsLocalShard(t.GetShard(k).value)
    requires t.KeyBytes(k) !in t.dispatcher.held
    requires t.partitions[t.GetShard(k).value].data == map[]
    modifies t, t.dispatcher
    ensures before == Done(false) && after == Done(true)
  {
    before := t.Contains(k, reply);
    var p := t.Put(k, v);
    after := t.Contains(k, reply);
  }

  /** A get of a remote key whose owner answers with the encoding of v
      returns v, provided the value codec round-trips. */
  method RemoteGetOfEncoded<K(==,!new), V(!new)>(t: TypedGlobalTable<K, V>, k: K, v: V)
    returns (o: Outcome<Option<V>>)
    requires t.Valid() && t.GetShard(k).Some? && !t.IsLocalShard(t.GetShard(k).value)
    requires RoundTrips(t.desc.valueMarshal)
    modifies t, t.dispatcher
    ensures o == Done(Some(v))
    ensures t.dispatcher.held == old(t.dispatcher.held)
  {
    o := t.Get(k, Reply(true, t.desc.valueMarshal.encode(v)));
  }
}
