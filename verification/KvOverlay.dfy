/**
The key-value stores around the cached batch: the cache and the batch as
objects (db/kv_cache.go, db/batch.go), the in-memory store (db/db.go), and the
write-back overlay the trie uses (db/kvstore4trie.go), which must look like a
plain map.
*/
module KvOverlay {
  import opened Options
  import opened ByteStrings
  import opened KvBatch

  class KvCache {
    var cache: map<Bytes, Bytes>
    var deleted: set<Bytes>

    ghost function Model(): Cache
      reads this
    {
      Cache(cache, deleted)
    }

    constructor ()
      ensures Model() == EMPTY
    {
      cache, deleted := map[], {};
    }

    method Write(k: Bytes, v: Bytes)
      modifies this
      ensures Model() == Cache(old(cache)[k := v], old(deleted) - {k})
    {
      cache := cache[k := v];
      deleted := deleted - {k};
    }

    method Evict(k: Bytes)
      modifies this
      ensures Model() == Cache(old(cache) - {k}, old(deleted) + {k})
    {
      cache := cache - {k};
      deleted := deleted + {k};
    }

    method Clear()
      modifies this
      ensures Model() == EMPTY
    {
      cache, deleted := map[], {};
    }

    /** A copy that later writes to this cache do not reach. */
    method Clone() returns (c: KvCache)
      ensures fresh(c) && c.Model() == Model()
    {
      c := new KvCache();
      c.cache, c.deleted := cache, deleted;
    }
  }

  class CachedBatch {
    var queue: seq<Write>
    var cache: KvCache
    var batchShots: seq<nat>
    var cacheShots: seq<KvCache>
    var tag: nat
    /** The state of the machine this batch follows. */
    ghost var state: State

    ghost predicate Valid()
      reads this, cache, cacheShots
    {
      && Bounded(state)
      && queue == state.queue
      && cache.Model() == Replay(state.seen)
      && tag == |batchShots| == |cacheShots| == |state.shots|
      && (forall i :: 0 <= i < tag ==> batchShots[i] == state.shots[i].size)
      && (forall i :: 0 <= i < tag ==> cacheShots[i].Model() == Replay(state.shots[i].seen))
      && (forall i, j :: 0 <= i < j < tag ==> cacheShots[i] != cacheShots[j])
      && (forall i :: 0 <= i < tag ==> (cacheShots[i] == cache <==> state.installed == Some(i)))
    }

    /** Writes were queued, if anything: to the same cache, and after the snapshots there were. */
    twostate predicate Extended()
      reads this
    {
      && cache == old(cache) && cacheShots == old(cacheShots) && batchShots == old(batchShots) && tag == old(tag)
      && old(queue) <= queue
      && state.installed == old(state.installed)
      && (forall i :: i in state.touched ==> i in old(state.touched) || state.installed == Some(i))
    }

    constructor ()
      ensures Valid() && fresh(cache) && state == INITIAL
    {
      queue, batchShots, cacheShots, tag := [], [], [], 0;
      cache := new KvCache();
      state := INITIAL;
    }

    method Put(namespace: Bytes, key: Bytes, value: Bytes)
      requires Valid()
      modifies this, cache
      ensures Valid() && Extended()
      ensures state == Step(old(state), WriteOp(PutWrite(namespace, key, value)))
    {
      hide Replay;
      var w := PutWrite(namespace, key, value);
      ReplayAppend(state.seen, w);
      StepBounded(state, WriteOp(w));
      cache.Write(namespace + key, value);
      queue := queue + [w];
      state := Step(state, WriteOp(w));
    }

    method Delete(namespace: Bytes, key: Bytes)
      requires Valid()
      modifies this, cache
      ensures Valid() && Extended()
      ensures state == Step(old(state), WriteOp(DeleteWrite(namespace, key)))
    {
      hide Replay;
      var w := DeleteWrite(namespace, key);
      ReplayAppend(state.seen, w);
      StepBounded(state, WriteOp(w));
      cache.Evict(namespace + key);
      queue := queue + [w];
      state := Step(state, WriteOp(w));
    }

    method Get(namespace: Bytes, key: Bytes) returns (a: Answer)
      requires Valid()
      ensures a == Read(Replay(state.seen), namespace + key)
    {
      var k := namespace + key;
      if k in cache.cache {
        return Found(cache.cache[k]);
      }
      if k in cache.deleted {
        return AlreadyDeleted;
      }
      return NotExist;
    }

    method Snapshot() returns (n: nat)
      requires Valid()
      modifies this
      ensures Valid() && n == old(tag) && cache == old(cache) && queue == old(queue)
      ensures |cacheShots| == n + 1 && cacheShots[..n] == old(cacheShots) && fresh(cacheShots[n])
      ensures batchShots == old(batchShots) + [|queue|]
      ensures state == Step(old(state), SnapshotOp)
    {
      hide Replay;
      batchShots := batchShots + [|queue|];
      var c := cache.Clone();
      StepBounded(state, SnapshotOp);
      cacheShots := cacheShots + [c];
      state := Step(state, SnapshotOp);
      n := tag;
      tag := tag + 1;
    }

    method Revert(snapshot: int) returns (ok: bool)
      requires Valid()
      modifies this
      ensures Valid() && ok == (0 <= snapshot < old(tag))
      ensures !ok ==> unchanged(this)
      ensures ok ==> queue == old(queue[..batchShots[snapshot]])
      ensures cache == if ok then old(cacheShots)[snapshot] else old(cache)
      ensures cacheShots == if ok then old(cacheShots)[..snapshot + 1] else old(cacheShots)
      ensures batchShots == if ok then old(batchShots)[..snapshot + 1] else old(batchShots)
      ensures state == Step(old(state), RevertOp(snapshot))
    {
      hide Replay;
      if snapshot < 0 || snapshot >= tag {
        return false;
      }
      StepBounded(state, RevertOp(snapshot));
      tag := snapshot + 1;
      batchShots := batchShots[..tag];
      queue := queue[..batchShots[snapshot]];
      cacheShots := cacheShots[..tag];
      cache := cacheShots[snapshot];
      state := Step(state, RevertOp(snapshot));
      return true;
    }

    method Clear()
      requires Valid()
      modifies this, cache
      ensures Valid() && cache == old(cache) && cacheShots == []
      ensures state == INITIAL
    {
      cache.Clear();
      queue, tag, batchShots, cacheShots := [], 0, [], [];
      state := INITIAL;
    }
  }

  // ---- the store

  const DELIMITER: Byte := 46

  datatype Store = Store(data: map<Bytes, Bytes>, buckets: set<Bytes>)

  function StoreKey(namespace: Bytes, key: Bytes): Bytes {
    namespace + [DELIMITER] + key
  }

  function ApplyToStore(s: Store, w: Write): Store {
    match w
    case PutWrite(n, k, v) => Store(s.data[StoreKey(n, k) := v], s.buckets + {n})
    case DeleteWrite(n, k) => s.(data := s.data - {StoreKey(n, k)})
  }

  function ReplayStore(s: Store, ws: seq<Write>): Store {
    if ws == [] then s else ApplyToStore(ReplayStore(s, ws[..|ws| - 1]), ws[|ws| - 1])
  }

  /** The record of a namespace, if it exists. */
  function Lookup(s: Store, namespace: Bytes, key: Bytes): Option<Bytes> {
    if namespace !in s.buckets then None
    else if StoreKey(namespace, key) in s.data then Some(s.data[StoreKey(namespace, key)])
    else None
  }

  /** Data under a namespace means that the namespace is known. */
  ghost predicate NoneHidden(s: Store, namespace: Bytes) {
    forall k :: StoreKey(namespace, k) in s.data ==> namespace in s.buckets
  }

  lemma StoreKeysApart(m: Bytes, n: Bytes, j: Bytes, k: Bytes)
    requires Apart(m, n) && StoreKey(m, j) == StoreKey(n, k)
    ensures m == n && j == k
  {
    assert m + ([DELIMITER] + j) == StoreKey(m, j) && n + ([DELIMITER] + k) == StoreKey(n, k);
    JoinedApart(m, n, [DELIMITER] + j, [DELIMITER] + k);
    assert j == ([DELIMITER] + j)[1..] && k == ([DELIMITER] + k)[1..];
  }

  /** One namespace, a dot, and more of the other's name, which the first one's key begins with. */
  ghost predicate DotInside(m: Bytes, j: Bytes, n: Bytes, k: Bytes) {
    m + [46] <= n && j == n[|m| + 1..] + [46] + k
  }

  /** Two records share a place in the store exactly if they are one, or a dot in a longer name parts it likewise. */
  lemma StoreKeysMeetIff(m: Bytes, j: Bytes, n: Bytes, k: Bytes)
    ensures StoreKey(m, j) == StoreKey(n, k) <==> (m == n && j == k) || DotInside(m, j, n, k) || DotInside(n, k, m, j)
  {
    if StoreKey(m, j) == StoreKey(n, k) {
      if |m| <= |n| { OneDot(m, j, n, k); } else { OneDot(n, k, m, j); }
    }
    if DotInside(m, j, n, k) { TwoDots(m, j, n, k); }
    if DotInside(n, k, m, j) { TwoDots(n, k, m, j); }
  }

  lemma OneDot(m: Bytes, j: Bytes, n: Bytes, k: Bytes)
    requires StoreKey(m, j) == StoreKey(n, k) && |m| <= |n|
    ensures (m == n && j == k) || DotInside(m, j, n, k)
  {
    var t := StoreKey(m, j);
    assert m == t[..|m|] && n == t[..|n|] && t[|m|] == 46 && t[|n|] == 46;
    assert j == t[|m| + 1..] && k == t[|n| + 1..];
    if |m| < |n| {
      assert n[..|m| + 1] == t[..|m| + 1] == m + [46];
      assert j == t[|m| + 1..|n|] + [t[|n|]] + t[|n| + 1..];
      assert n[|m| + 1..] == t[|m| + 1..|n|];
    }
  }

  lemma TwoDots(m: Bytes, j: Bytes, n: Bytes, k: Bytes)
    requires DotInside(m, j, n, k)
    ensures StoreKey(m, j) == StoreKey(n, k)
  {
    assert n == m + [46] + n[|m| + 1..];
    assert m + [46] + (n[|m| + 1..] + [46] + k) == (m + [46] + n[|m| + 1..]) + [46] + k;
  }

  function AfterWrite(w: Option<Write>, before: Option<Bytes>): Option<Bytes> {
    match w
    case None => before
    case Some(PutWrite(_, _, v)) => Some(v)
    case Some(DeleteWrite(_, _)) => None
  }

  lemma {:induction false} ApplyMeans(s: Store, w: Write, namespace: Bytes, key: Bytes)
    requires Apart(w.namespace, namespace) && NoneHidden(s, namespace)
    ensures NoneHidden(ApplyToStore(s, w), namespace)
    ensures Lookup(ApplyToStore(s, w), namespace, key) ==
            if w.namespace == namespace && w.key == key then AfterWrite(Some(w), None) else Lookup(s, namespace, key)
  {
    forall k | StoreKey(namespace, k) == StoreKey(w.namespace, w.key)
      ensures w.namespace == namespace && w.key == k
    {
      StoreKeysApart(w.namespace, namespace, w.key, k);
    }
  }

  /** The store after a replay: the last write to a record decides, else the record stays. */
  lemma {:induction false} ReplayMeans(s: Store, ws: seq<Write>, namespace: Bytes, key: Bytes)
    requires AllApart(ws, namespace) && NoneHidden(s, namespace)
    ensures NoneHidden(ReplayStore(s, ws), namespace)
    ensures Lookup(ReplayStore(s, ws), namespace, key) ==
            AfterWrite(LastWrite(ws, namespace, key), Lookup(s, namespace, key))
  {
    if ws != [] {
      var w := ws[|ws| - 1];
      assert w in ws;
      ReplayMeans(s, ws[..|ws| - 1], namespace, key);
      ApplyMeans(ReplayStore(s, ws[..|ws| - 1]), w, namespace, key);
    }
  }

  class MemKVStore {
    var data: map<Bytes, Bytes>
    var bucket: set<Bytes>

    ghost function Model(): Store
      reads this
    {
      Store(data, bucket)
    }

    constructor ()
      ensures Model() == Store(map[], {})
    {
      data, bucket := map[], {};
    }

    method Put(namespace: Bytes, key: Bytes, value: Bytes)
      modifies this
      ensures Model() == ApplyToStore(old(Model()), PutWrite(namespace, key, value))
    {
      bucket := bucket + {namespace};
      data := data[StoreKey(namespace, key) := value];
    }

    method Get(namespace: Bytes, key: Bytes) returns (v: Option<Bytes>)
      ensures v == Lookup(Model(), namespace, key)
    {
      if namespace !in bucket {
        return None;
      }
      var k := StoreKey(namespace, key);
      v := if k in data then Some(data[k]) else None;
    }

    method Delete(namespace: Bytes, key: Bytes)
      modifies this
      ensures Model() == ApplyToStore(old(Model()), DeleteWrite(namespace, key))
    {
      data := data - {StoreKey(namespace, key)};
    }

    /** Replays the queue on the store and clears the batch. */
    method Commit(b: CachedBatch)
      requires b.Valid()
      modifies this, b, b.cache
      ensures Model() == ReplayStore(old(Model()), old(b.queue))
      ensures b.Valid() && b.state == INITIAL && b.cache == old(b.cache) && b.cacheShots == []
    {
      var i := 0;
      while i < |b.queue|
        invariant 0 <= i <= |b.queue| && b.queue == old(b.queue)
        invariant Model() == ReplayStore(old(Model()), b.queue[..i])
        modifies this
      {
        assert b.queue[..i + 1][..i] == b.queue[..i];
        match b.queue[i] {
          case PutWrite(n, k, v) => Put(n, k, v);
          case DeleteWrite(n, k) => Delete(n, k);
        }
        i := i + 1;
      }
      assert b.queue[..|b.queue|] == b.queue;
      b.Clear();
    }
  }

  // ---- the overlay

  /** What the overlay answers: the cache, and the store where the cache knows nothing. */
  function Overlaid(c: Cache, s: Store, namespace: Bytes, key: Bytes): Option<Bytes> {
    match Read(c, namespace + key)
    case Found(v) => Some(v)
    case AlreadyDeleted => None
    case NotExist => Lookup(s, namespace, key)
  }

  lemma OverlaidIs(s: Store, ws: seq<Write>, namespace: Bytes, key: Bytes)
    requires AllApart(ws, namespace) && NoneHidden(s, namespace)
    ensures Overlaid(Replay(ws), s, namespace, key) == Lookup(ReplayStore(s, ws), namespace, key)
  {
    CacheIsLastWrite(ws, namespace, key);
    ReplayMeans(s, ws, namespace, key);
  }

  /** Over some namespaces, the overlay answers for one of them as the store will after a flush, ... */
  ghost predicate OverlayRight(bucket: Bytes, names: set<Bytes>) {
    forall s: Store, ws: seq<Write>, key: Bytes :: WritesIn(ws, names) && NoneHidden(s, bucket) ==>
      Overlaid(Replay(ws), s, bucket, key) == Lookup(ReplayStore(s, ws), bucket, key)
  }

  /** ... exactly when it neither begins another of them nor is begun by one. */
  lemma OverlayRightIff(bucket: Bytes, names: set<Bytes>)
    ensures OverlayRight(bucket, names) <==> forall n :: n in names ==> Apart(n, bucket)
  {
    if forall n :: n in names ==> Apart(n, bucket) {
      forall s: Store, ws: seq<Write>, key: Bytes | WritesIn(ws, names) && NoneHidden(s, bucket)
        ensures Overlaid(Replay(ws), s, bucket, key) == Lookup(ReplayStore(s, ws), bucket, key)
      {
        assert AllApart(ws, bucket);
        OverlaidIs(s, ws, bucket, key);
      }
    } else {
      var n :| n in names && !Apart(n, bucket);
      var w, key := if bucket <= n then PutWrite(n, [], []) else PutWrite(n, bucket[|n|..], []),
                    if bucket <= n then n[|bucket|..] else [];
      var s := Store(map[], {});
      assert w.CacheKey() == bucket + key;
      assert Replay([w]) == Apply(EMPTY, w) by { ReplayAppend([], w); assert [] + [w] == [w]; }
      assert ReplayStore(s, [w]) == ApplyToStore(s, w) by { assert [w][..0] == []; }
      assert Overlaid(Replay([w]), s, bucket, key) == Some([]);
      assert Lookup(ReplayStore(s, [w]), bucket, key) == None;
      assert WritesIn([w], names) && NoneHidden(s, bucket);
    }
  }

  class KVStoreForTrie {
    const bucket: Bytes
    const dao: MemKVStore
    const cb: CachedBatch

    ghost predicate Valid()
      reads dao, cb, cb.cache, cb.cacheShots
    {
      cb.Valid()
    }

    /**
    The batch's cache is what its queue comes to, as were those of the snapshots when taken, and no other
    namespace in it begins the bucket or is begun by it.
    */
    ghost predicate Plain()
      reads dao, cb, cb.cache, cb.cacheShots
    {
      cb.Valid() && Sound(cb.state) && AllApart(cb.queue, bucket) && NoneHidden(dao.Model(), bucket)
    }

    /** The records of the bucket, as they would be after a flush. */
    ghost function View(key: Bytes): Option<Bytes>
      reads dao, cb
    {
      Lookup(ReplayStore(dao.Model(), cb.queue), bucket, key)
    }

    constructor (bucket: Bytes, dao: MemKVStore, cb: CachedBatch)
      requires cb.Valid()
      ensures Valid() && this.bucket == bucket && this.dao == dao && this.cb == cb
    {
      this.bucket, this.dao, this.cb := bucket, dao, cb;
    }

    method Get(key: Bytes) returns (v: Option<Bytes>)
      requires Valid()
      ensures v == Overlaid(Replay(cb.state.seen), dao.Model(), bucket, key)
      ensures Plain() ==> v == View(key)
    {
      if Plain() { OverlaidIs(dao.Model(), cb.queue, bucket, key); }
      var a := cb.Get(bucket, key);
      match a
      case NotExist =>
        v := dao.Get(bucket, key);
      case AlreadyDeleted =>
        v := None;
      case Found(x) =>
        v := Some(x);
    }

    method Put(key: Bytes, value: Bytes)
      requires Valid()
      modifies cb, cb.cache
      ensures Valid() && cb.state == KvBatch.Step(old(cb.state), WriteOp(PutWrite(bucket, key, value)))
      ensures cb.Extended()
      ensures old(Plain()) ==> Plain() && forall k :: View(k) == if k == key then Some(value) else old(View(k))
    {
      if Plain() { Queued(PutWrite(bucket, key, value)); }
      cb.Put(bucket, key, value);
    }

    method Delete(key: Bytes)
      requires Valid()
      modifies cb, cb.cache
      ensures Valid() && cb.state == KvBatch.Step(old(cb.state), WriteOp(DeleteWrite(bucket, key)))
      ensures cb.Extended()
      ensures old(Plain()) ==> Plain() && forall k :: View(k) == if k == key then None else old(View(k))
    {
      if Plain() { Queued(DeleteWrite(bucket, key)); }
      cb.Delete(bucket, key);
    }

    /** One more write, here or elsewhere, changes at most one record of the view and keeps the cache right. */
    lemma Queued(w: Write)
      requires Plain() && Apart(w.namespace, bucket)
      ensures Bounded(KvBatch.Step(cb.state, WriteOp(w))) && Sound(KvBatch.Step(cb.state, WriteOp(w)))
      ensures forall k :: Lookup(ReplayStore(dao.Model(), cb.queue + [w]), bucket, k) ==
                          if w.namespace == bucket && k == w.key then AfterWrite(Some(w), None) else View(k)
    {
      StepRightIff(cb.state, WriteOp(w));
      StepSound(cb.state, WriteOp(w));
      assert (cb.queue + [w])[..|cb.queue|] == cb.queue;
      ReplayMeans(dao.Model(), cb.queue, bucket, w.key);
      forall k { ApplyMeans(ReplayStore(dao.Model(), cb.queue), w, bucket, k); }
    }

    /** Everything queued goes to the store; queue and cache are empty; no record of the view changes. */
    method Flush()
      requires Valid()
      modifies dao, cb, cb.cache
      ensures Valid()
      ensures dao.Model() == ReplayStore(old(dao.Model()), old(cb.queue))
      ensures cb.state == INITIAL && cb.queue == [] && cb.cache.Model() == EMPTY && cb.tag == 0
      ensures cb.cache == old(cb.cache) && cb.cacheShots == []
      ensures forall k :: View(k) == old(View(k)) && View(k) == Lookup(dao.Model(), bucket, k)
      ensures old(Plain()) ==> Plain()
    {
      if Plain() { ReplayMeans(dao.Model(), cb.queue, bucket, []); }
      InitiallySound();
      dao.Commit(cb);
    }
  }
}
