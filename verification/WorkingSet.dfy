/**
The working set of account states (state/factory/workingset.go): the account trie over the write-back overlay, with
snapshots that remember the root of the trie.

A snapshot of the batch covers the nodes of the trie, so a revert must bring back a store in which the remembered root
opens the trie as it was. That needs the batch, its cache and the trie to agree, and it is shown for whole runs with
nested attempts, each of them given up or not.
*/
module WorkingSets {
  import opened Options
  import opened TrieNodes
  import opened TrieMap
  import opened TrieOps
  import opened TrieCanonical
  import opened TrieReach
  import opened TrieStore
  import opened KvOverlay
  import KvBatch

  /** The trie whose root `r` is has its nodes in a store after some writes. */
  ghost predicate SavedIn(codec: Codec, bucket: Bytes, len: nat, st: Store, r: Node) {
    IsRoot(r, len) && codec.HasIn(st, bucket, Reach(r))
  }

  /** Writes to other namespaces leave the nodes in a bucket alone. */
  lemma HasInAfter(codec: Codec, bucket: Bytes, st: Store, ws: seq<KvBatch.Write>, w: KvBatch.Write, s: set<Hash>)
    requires KvBatch.AllApart(ws, bucket) && NoneHidden(st, bucket)
    requires KvBatch.Apart(w.namespace, bucket) && w.namespace != bucket
    requires codec.HasIn(ReplayStore(st, ws), bucket, s)
    ensures codec.HasIn(ReplayStore(st, ws + [w]), bucket, s)
  {
    ReplayMeans(st, ws, bucket, []);
    assert (ws + [w])[..|ws|] == ws;
    forall h ensures Lookup(ReplayStore(st, ws + [w]), bucket, codec.hashBytes(h)) == codec.Entry(h, s) {
      ApplyMeans(ReplayStore(st, ws), w, bucket, codec.hashBytes(h));
    }
  }

  /** Changes to the accounts and to other namespaces, some of them in attempts. */
  datatype Script =
    | Done
    | Putting(key: Key, value: Value, next: Script)
    | Deleting(key: Key, next: Script)
    | Elsewhere(namespace: Bytes, record: Bytes, data: Bytes, next: Script)
    | Attempt(inner: Script, givenUp: bool, next: Script)
  {
    /** No other namespace begins the one of the accounts or is begun by it. */
    ghost predicate StaysOff(bucket: Bytes) {
      match this
      case Done => true
      case Putting(_, _, next) => next.StaysOff(bucket)
      case Deleting(_, next) => next.StaysOff(bucket)
      case Elsewhere(n, _, _, next) => n != bucket && KvBatch.Apart(n, bucket) && next.StaysOff(bucket)
      case Attempt(inner, _, next) => inner.StaysOff(bucket) && next.StaysOff(bucket)
    }
  }

  /** What a script makes of a map: an attempt that is given up counts for nothing. */
  ghost function Outcome(m: map<Key, Value>, len: nat, script: Script): map<Key, Value>
    decreases script
  {
    match script
    case Done => m
    case Putting(k, v, next) => Outcome(if |k| == len then m[k := v] else m, len, next)
    case Deleting(k, next) => Outcome(if |k| == len then m - {k} else m, len, next)
    case Elsewhere(_, _, _, next) => Outcome(m, len, next)
    case Attempt(inner, givenUp, next) => Outcome(if givenUp then m else Outcome(m, len, inner), len, next)
  }

  class WorkingSet {
    const dao: MemKVStore
    const cb: CachedBatch
    const accountTrie: BranchRootTrie
    var trieRoots: map<int, Hash>
    /** The root of the trie at each snapshot there is. */
    ghost var roots: seq<Node>

    ghost predicate Valid()
      reads this, accountTrie, accountTrie.kvStore.dao, accountTrie.kvStore.cb, accountTrie.kvStore.cb.cache,
            accountTrie.kvStore.cb.cacheShots
    {
      && accountTrie.kvStore.dao == dao && accountTrie.kvStore.cb == cb
      && accountTrie.Valid()
      && |roots| == |cb.batchShots|
      && (forall i :: 0 <= i < |roots| ==> Saved(i))
    }

    /** Cutting the queue back to where a snapshot was taken leaves the trie as it was then. */
    ghost predicate Saved(i: nat)
      requires i < |roots| == |cb.batchShots|
      reads this, dao, cb
    {
      && i in trieRoots && trieRoots[i] == HashOf(roots[i])
      && cb.batchShots[i] <= |cb.queue|
      && SavedIn(accountTrie.codec, accountTrie.kvStore.bucket, accountTrie.keyLength,
                 ReplayStore(dao.Model(), cb.queue[..cb.batchShots[i]]), roots[i])
    }

    /** The states of the accounts. */
    ghost function States(): map<Key, Value>
      requires Valid()
      reads this, accountTrie, accountTrie.kvStore.dao, accountTrie.kvStore.cb, accountTrie.kvStore.cb.cache,
            accountTrie.kvStore.cb.cacheShots
    {
      Contents(accountTrie.root)
    }

    constructor (accountTrie: BranchRootTrie)
      requires accountTrie.kvStore.cb.batchShots == []
      ensures this.accountTrie == accountTrie && dao == accountTrie.kvStore.dao && cb == accountTrie.kvStore.cb
      ensures roots == [] && (accountTrie.Valid() ==> Valid())
    {
      this.accountTrie, dao, cb := accountTrie, accountTrie.kvStore.dao, accountTrie.kvStore.cb;
      trieRoots, roots := map[], [];
    }

    /** What was saved stays saved while writes are only added. */
    twostate lemma StillSaved()
      requires old(Valid()) && roots == old(roots) && trieRoots == old(trieRoots)
      requires cb.Extended() && unchanged(dao)
      ensures forall i :: 0 <= i < |roots| ==> Saved(i)
    {
      hide SavedIn;
      forall i | 0 <= i < |roots| ensures Saved(i) {
        assert old(Saved(i));
        assert cb.queue[..cb.batchShots[i]] == old(cb.queue)[..cb.batchShots[i]];
      }
    }

    method State(key: Key) returns (value: Option<Value>, status: Status)
      requires Valid()
      ensures |key| != accountTrie.keyLength ==> status == InvalidKey && value == None
      ensures |key| == accountTrie.keyLength ==>
                && status == (if key in States() then Ok else NotExist)
                && value == if key in States() then Some(States()[key]) else None
    {
      value, status := accountTrie.Get(key);
    }

    method PutState(key: Key, value: Value) returns (status: Status)
      requires Valid()
      modifies accountTrie, cb, cb.cache
      ensures Valid() && cb.Extended()
      ensures status == if |key| == accountTrie.keyLength then Ok else InvalidKey
      ensures States() == if status == Ok then old(States())[key := value] else old(States())
      ensures accountTrie.root == Step(old(accountTrie.root), accountTrie.keyLength, UpsertOp(key, value))
    {
      hide SavedIn;
      status := accountTrie.Upsert(key, value);
      StillSaved();
    }

    method DelState(key: Key) returns (status: Status)
      requires Valid()
      modifies accountTrie, cb, cb.cache
      ensures Valid() && cb.Extended()
      ensures status == if |key| != accountTrie.keyLength then InvalidKey
                        else if key in old(States()) then Ok
                        else NotExist
      ensures States() == if status == Ok then old(States()) - {key} else old(States())
    {
      hide SavedIn;
      status := accountTrie.Delete(key);
      StillSaved();
    }

    /** A write to another namespace of the same batch. */
    method PutElsewhere(namespace: Bytes, key: Bytes, value: Bytes)
      requires Valid() && namespace != accountTrie.kvStore.bucket
      requires KvBatch.Apart(namespace, accountTrie.kvStore.bucket)
      modifies cb, cb.cache
      ensures Valid() && cb.Extended() && States() == old(States())
      ensures cb.state == KvBatch.Step(old(cb.state), KvBatch.WriteOp(KvBatch.PutWrite(namespace, key, value)))
    {
      hide SavedIn, BranchRootTrie.Holds, ReplayStore, Codec.HasIn, KvBatch.Sound, Contents;
      ghost var w := KvBatch.PutWrite(namespace, key, value);
      ghost var s := Reach(accountTrie.root);
      accountTrie.HoldsIff(s);
      accountTrie.kvStore.Queued(w);
      HasInAfter(accountTrie.codec, accountTrie.kvStore.bucket, dao.Model(), cb.queue, w, s);
      cb.Put(namespace, key, value);
      accountTrie.HoldsIff(s);
      StillSaved();
    }

    method Snapshot() returns (n: nat)
      requires Valid()
      modifies this, cb
      ensures Valid() && States() == old(States()) && accountTrie.root == old(accountTrie.root)
      ensures n == |old(roots)| && roots == old(roots) + [accountTrie.root]
      ensures cb.cache == old(cb.cache) && cb.state == KvBatch.Step(old(cb.state), KvBatch.SnapshotOp)
      ensures |cb.cacheShots| == n + 1 && cb.cacheShots[..n] == old(cb.cacheShots) && fresh(cb.cacheShots[n])
    {
      hide BranchRootTrie.Holds, ReplayStore, Codec.HasIn, KvBatch.Sound, Contents;
      accountTrie.HoldsIff(Reach(accountTrie.root));
      KvBatch.StepRightIff(cb.state, KvBatch.SnapshotOp);
      KvBatch.StepSound(cb.state, KvBatch.SnapshotOp);
      n := cb.Snapshot();
      trieRoots := trieRoots[n := accountTrie.rootHash];
      roots := roots + [accountTrie.root];
      accountTrie.HoldsIff(Reach(accountTrie.root));
      assert cb.queue[..|cb.queue|] == cb.queue;
      assert Saved(n);
      hide SavedIn;
      forall i | 0 <= i < n ensures Saved(i) {
        assert old(Saved(i));
      }
    }

    /**
    Gives up what was done since a snapshot. The accounts are as they were then, and no snapshot before it is lost, if
    the writes that went into the snapshot's own cache were given back; there are none unless it was reverted to
    before.
    */
    method Revert(snapshot: int) returns (ok: bool)
      requires Valid()
      modifies this, cb, accountTrie
      ensures cb.state == KvBatch.Step(old(cb.state), KvBatch.RevertOp(snapshot)) && trieRoots == old(trieRoots)
      ensures if 0 <= snapshot < |old(roots)| then
                && roots == old(roots)[..snapshot + 1]
                && cb.cache == old(cb.cacheShots)[snapshot] && cb.cacheShots == old(cb.cacheShots)[..snapshot + 1]
                && (ok <==> Opens(HashOf(old(roots)[snapshot])))
                && (KvBatch.ShotGivenBack(old(cb.state).shots[snapshot]) ==>
                      ok && Valid() && accountTrie.root == old(roots)[snapshot])
              else
                && !ok && Valid() && roots == old(roots) && accountTrie.root == old(accountTrie.root)
                && cb.cache == old(cb.cache) && cb.cacheShots == old(cb.cacheShots)
    {
      hide BranchRootTrie.Holds, Saved, Contents, KvBatch.ShotGivenBack, KvBatch.Step;
      ghost var were := roots;
      ok := CutBack(snapshot);
      if !ok {
        return;
      }
      if snapshot !in trieRoots {
        return false;
      }
      var status := accountTrie.SetRootHash(Some(trieRoots[snapshot]));
      ok := status == Ok;
    }

    /** The overlay has a branch under a hash. */
    ghost predicate Opens(h: Hash)
      reads accountTrie.kvStore.dao, accountTrie.kvStore.cb
    {
      accountTrie.Loaded(h).Some? && accountTrie.Loaded(h).value.Branch?
    }

    /** The batch goes back to where it was, and with it the nodes of the trie. */
    method CutBack(snapshot: int) returns (ok: bool)
      requires Valid()
      modifies this`roots, cb
      ensures cb.Valid() && cb.state == KvBatch.Step(old(cb.state), KvBatch.RevertOp(snapshot))
      ensures ok == (0 <= snapshot < |old(roots)|)
      ensures !ok ==> Valid() && roots == old(roots) && cb.cache == old(cb.cache) && cb.cacheShots == old(cb.cacheShots)
      ensures ok ==>
                && roots == old(roots)[..snapshot + 1] && snapshot in trieRoots
                && trieRoots[snapshot] == HashOf(roots[snapshot])
                && cb.cache == old(cb.cacheShots)[snapshot] && cb.cacheShots == old(cb.cacheShots)[..snapshot + 1]
      ensures ok && KvBatch.ShotGivenBack(old(cb.state).shots[snapshot]) ==>
                && IsRoot(roots[snapshot], accountTrie.keyLength) && accountTrie.Holds(Reach(roots[snapshot]))
                && |roots| == |cb.batchShots| && forall i :: 0 <= i < |roots| ==> Saved(i)
    {
      hide BranchRootTrie.Holds, ReplayStore, KvBatch.Sound, KvBatch.ShotGivenBack, KvBatch.Step, Codec.HasIn, IsRoot;
      hide KvBatch.Bounded;
      accountTrie.HoldsIff(Reach(accountTrie.root));
      ghost var given := 0 <= snapshot < |roots| && KvBatch.ShotGivenBack(cb.state.shots[snapshot]);
      assert cb.tag == |roots| == |cb.state.shots|;
      hide Codec.Sound, CachedBatch.Valid;
      if given { RevertLeaves(snapshot); }
      ok := cb.Revert(snapshot);
      if !ok {
        return;
      }
      assert old(Saved(snapshot));
      roots := roots[..snapshot + 1];
      if given {
        accountTrie.HoldsIff(Reach(roots[snapshot]));
        hide SavedIn;
        forall i | 0 <= i < |roots| ensures Saved(i) {
          assert old(Saved(i));
        }
      }
    }

    lemma RevertLeaves(n: nat)
      requires Valid() && n < |roots| && KvBatch.ShotGivenBack(cb.state.shots[n])
      ensures var to := KvBatch.Step(cb.state, KvBatch.RevertOp(n));
              && KvBatch.Bounded(to) && KvBatch.Sound(to)
              && to.queue == cb.queue[..cb.batchShots[n]] && KvBatch.AllApart(to.queue, accountTrie.kvStore.bucket)
              && forall i :: 0 <= i <= n ==>
                   cb.batchShots[i] <= |to.queue| && to.queue[..cb.batchShots[i]] == cb.queue[..cb.batchShots[i]]
    {
      KvBatch.StepRightIff(cb.state, KvBatch.RevertOp(n));
      KvBatch.StepSound(cb.state, KvBatch.RevertOp(n));
    }

    /** Everything queued goes to the store, where the root hash finds the accounts again. */
    method Commit()
      requires Valid()
      modifies this, dao, cb, cb.cache
      ensures Valid() && roots == [] && accountTrie.root == old(accountTrie.root) && States() == old(States())
      ensures dao.Model() == ReplayStore(old(dao.Model()), old(cb.queue)) && cb.state == KvBatch.INITIAL
      ensures cb.cache == old(cb.cache) && cb.cacheShots == []
      ensures NoneHidden(dao.Model(), accountTrie.kvStore.bucket)
      ensures SavedIn(accountTrie.codec, accountTrie.kvStore.bucket, accountTrie.keyLength, dao.Model(),
                      accountTrie.root)
    {
      hide BranchRootTrie.Holds, KvBatch.Sound, Codec.HasIn, IsRoot, Contents, Reach;
      accountTrie.HoldsIff(Reach(accountTrie.root));
      ReplayMeans(dao.Model(), cb.queue, accountTrie.kvStore.bucket, []);
      KvBatch.InitiallySound();
      dao.Commit(cb);
      trieRoots, roots := map[], [];
      accountTrie.HoldsIff(Reach(accountTrie.root));
    }

    // ---- runs

    /** Snapshots that are still to be reverted to, and whose caches are not written to. */
    ghost predicate Open(shots: set<nat>)
      reads this, cb
    {
      forall i :: i in shots ==> i < |roots| && i !in cb.state.touched && cb.state.installed != Some(i)
    }

    /**
    Every run of changes with attempts in it, nested as deep as may be: what was done in an attempt that was given up
    leaves no trace in the accounts.
    */
    method Run(script: Script, ghost shots: set<nat>)
      requires Valid() && Open(shots) && script.StaysOff(accountTrie.kvStore.bucket)
      modifies this, accountTrie, cb, cb.cache
      ensures Valid() && Open(shots) && old(roots) <= roots && old(cb.cacheShots) <= cb.cacheShots
      ensures cb.cache == old(cb.cache) || fresh(cb.cache)
      ensures States() == Outcome(old(States()), accountTrie.keyLength, script)
      decreases script, 1
    {
      hide Valid, Contents;
      match script {
        case Done =>
        case Putting(key, value, next) =>
          var status := PutState(key, value);
          Run(next, shots);
        case Deleting(key, next) =>
          var status := DelState(key);
          assert key !in old(States()) ==> old(States()) - {key} == old(States());
          Run(next, shots);
        case Elsewhere(namespace, key, value, next) =>
          PutElsewhere(namespace, key, value);
          Run(next, shots);
        case Attempt(inner, givenUp, next) =>
          Try(inner, givenUp, shots);
          Run(next, shots);
      }
    }

    /** Takes a snapshot, makes the changes, and goes back to the snapshot if they are given up. */
    method Try(inner: Script, givenUp: bool, ghost shots: set<nat>)
      requires Valid() && Open(shots) && inner.StaysOff(accountTrie.kvStore.bucket)
      modifies this, accountTrie, cb, cb.cache
      ensures Valid() && Open(shots) && old(roots) <= roots && old(cb.cacheShots) <= cb.cacheShots
      ensures cb.cache == old(cb.cache) || fresh(cb.cache)
      ensures States() == if givenUp then old(States()) else Outcome(old(States()), accountTrie.keyLength, inner)
      decreases inner, 2
    {
      hide Valid, Contents, KvBatch.ShotGivenBack;
      Shots();
      var n := Snapshot();
      Run(inner, shots + {n});
      Shots();
      if givenUp {
        assert n in shots + {n};
        var ok := Revert(n);
      }
    }

    /** A snapshot that was not written to can be reverted to. */
    lemma Shots()
      requires Valid()
      ensures KvBatch.Bounded(cb.state) && |cb.state.shots| == |roots|
      ensures forall i :: 0 <= i < |roots| && i !in cb.state.touched ==> KvBatch.ShotGivenBack(cb.state.shots[i])
    {
      hide KvBatch.ShotGivenBack;
      forall i | 0 <= i < |roots| && i !in cb.state.touched ensures KvBatch.ShotGivenBack(cb.state.shots[i]) {
        KvBatch.UntouchedGivenBack(cb.state, i);
      }
    }
  }

  /** The node that a store has under a hash, if it has one. */
  ghost function NodeIn(codec: Codec, bucket: Bytes, st: Store, h: Hash): Option<Node> {
    if h == EMPTY_HASH then Some(EMPTY_ROOT)
    else match Lookup(st, bucket, codec.hashBytes(h))
      case None => None
      case Some(bytes) => codec.parse(bytes)
  }

  lemma NothingSeen(codec: Codec, bucket: Bytes, st: Store, h: Hash)
    ensures Overlaid(KvBatch.Replay([]), st, bucket, codec.hashBytes(h)) == Lookup(st, bucket, codec.hashBytes(h))
  {
  }

  /** A working set over a store, from a root; none if the store has no such root. */
  method NewWorkingSet(dao: MemKVStore, bucket: Bytes, len: nat, root: Hash, codec: Codec)
    returns (ws: Option<WorkingSet>)
    requires 0 < len <= 128
    ensures ws.Some? ==>
              fresh(ws.value) && fresh(ws.value.accountTrie) && fresh(ws.value.cb) && fresh(ws.value.cb.cache)
    ensures ws.Some? ==> ws.value.dao == dao && ws.value.accountTrie.codec == codec && ws.value.roots == []
    ensures ws.Some? ==> ws.value.cb.state == KvBatch.INITIAL
    ensures ws.Some? <==> NodeIn(codec, bucket, dao.Model(), root).Some? &&
                          NodeIn(codec, bucket, dao.Model(), root).value.Branch?
    ensures codec.Sound() && NoneHidden(dao.Model(), bucket) && SavedIn(codec, bucket, len, dao.Model(), root.node) ==>
              ws.Some? && ws.value.Valid() && ws.value.accountTrie.root == root.node
  {
    hide Codec.HasIn, Codec.Sound, IsRoot, BranchRootTrie.Holds, BranchRootTrie.Loaded, Reach, NodeIn, NoneHidden;
    var tr := NewTrie(dao, bucket, len, codec, root);
    var status := tr.SetRootHash(Some(root));
    if status != Ok {
      return None;
    }
    var made := new WorkingSet(tr);
    ws := Some(made);
  }

  /** A trie over a store with nothing queued: it sees what the store has. */
  method NewTrie(dao: MemKVStore, bucket: Bytes, len: nat, codec: Codec, ghost h: Hash) returns (tr: BranchRootTrie)
    requires 0 < len <= 128
    ensures fresh(tr) && fresh(tr.kvStore) && fresh(tr.kvStore.cb) && fresh(tr.kvStore.cb.cache)
    ensures tr.kvStore.dao == dao && tr.kvStore.bucket == bucket && tr.keyLength == len && tr.codec == codec
    ensures tr.kvStore.Valid() && tr.kvStore.cb.state == KvBatch.INITIAL && tr.kvStore.cb.batchShots == []
    ensures tr.Loaded(h) == NodeIn(codec, bucket, dao.Model(), h)
    ensures codec.Sound() && NoneHidden(dao.Model(), bucket) && codec.HasIn(dao.Model(), bucket, Reach(h.node)) ==>
              tr.Holds(Reach(h.node))
  {
    hide Codec.HasIn, Codec.Sound, BranchRootTrie.Holds, Reach;
    var cb := new CachedBatch();
    KvBatch.InitiallySound();
    var kvStore := new KVStoreForTrie(bucket, dao, cb);
    tr := new BranchRootTrie(len, kvStore, codec);
    tr.HoldsIff(Reach(h.node));
    NothingSeen(codec, bucket, dao.Model(), h);
  }

  /** Committing and opening the store again from the root hash gives back the accounts. */
  method CommitAndOpen(ws: WorkingSet) returns (again: Option<WorkingSet>)
    requires ws.Valid()
    modifies ws, ws.dao, ws.cb, ws.cb.cache
    ensures ws.Valid() && again.Some? && again.value.Valid()
    ensures again.value.States() == ws.States() == old(ws.States())
  {
    hide SavedIn, Codec.HasIn, BranchRootTrie.Holds, Contents;
    ws.Commit();
    var tr := ws.accountTrie;
    assert tr.codec.Sound() by { tr.HoldsIff(Reach(tr.root)); }
    again := NewWorkingSet(ws.dao, tr.kvStore.bucket, tr.keyLength, tr.rootHash, tr.codec);
  }

  /**
  A snapshot that was reverted to, then written past, cannot be reverted to again: the shared cache has the old root
  deleted. This is so for every working set with some account and every change of a state.
  */
  method SecondRevertFails(ws: WorkingSet, key: Key, value: Value) returns (ok: bool)
    requires ws.Valid() && |key| == ws.accountTrie.keyLength && ws.States() != map[]
    requires key !in ws.States() || ws.States()[key] != value
    modifies ws, ws.accountTrie, ws.cb, ws.cb.cache
    ensures !ok
  {
    hide Contents, WorkingSet.Valid, KvBatch.Step, KvBatch.Bounded, Overlaid, KvBatch.Replay, KvBatch.ShotGivenBack;
    var n := RevertThenPut(ws, key, value);
    SeenStays(ws.cb.state, n);
    ok := ws.Revert(n);
  }

  /** After a revert, a change of a state goes into the snapshot's own cache: the old root is deleted there. */
  method RevertThenPut(ws: WorkingSet, key: Key, value: Value) returns (n: nat)
    requires ws.Valid() && |key| == ws.accountTrie.keyLength && ws.States() != map[]
    requires key !in ws.States() || ws.States()[key] != value
    modifies ws, ws.accountTrie, ws.cb, ws.cb.cache
    ensures ws.Valid() && n < |ws.roots| && ws.roots[n] == old(ws.accountTrie.root)
    ensures KvBatch.Bounded(ws.cb.state) && ws.cb.state.installed == Some(n)
    ensures ws.accountTrie.Loaded(HashOf(ws.roots[n])) == None
    ensures fresh(ws.cb.cache)
  {
    ghost var was := ws.accountTrie.root;
    assert IsRoot(was, |key|);
    hide Contents, KvBatch.ShotGivenBack, WorkingSet.Valid, BranchRootTrie.Loaded, IsRoot;
    n := SnapshotAndRevert(ws);
    var status := ws.PutState(key, value);
    ws.Shots();
    OldRootGone(ws, was, key, value);
  }

  method SnapshotAndRevert(ws: WorkingSet) returns (n: nat)
    requires ws.Valid()
    modifies ws, ws.accountTrie, ws.cb
    ensures ws.Valid() && n < |ws.roots| && ws.roots[n] == ws.accountTrie.root == old(ws.accountTrie.root)
    ensures ws.cb.state.installed == Some(n) && fresh(ws.cb.cache)
  {
    hide WorkingSet.Valid, KvBatch.ShotGivenBack, WorkingSet.Opens;
    ws.Shots();
    n := ws.Snapshot();
    ws.Shots();
    var ok := ws.Revert(n);
  }

  lemma SeenStays(s: KvBatch.State, n: nat)
    requires KvBatch.Bounded(s) && s.installed == Some(n)
    ensures KvBatch.Step(s, KvBatch.RevertOp(n)).seen == s.seen
  {
  }

  /** The root before a change of a state is not among the nodes afterwards. */
  lemma OldRootGone(ws: WorkingSet, was: Node, key: Key, value: Value)
    requires ws.Valid() && |key| == ws.accountTrie.keyLength && IsRoot(was, |key|) && Contents(was) != map[]
    requires key !in Contents(was) || Contents(was)[key] != value
    requires ws.accountTrie.root == UpsertRoot(was, key, value)
    ensures ws.accountTrie.Loaded(HashOf(was)) == None
  {
    hide BranchRootTrie.Holds, BranchRootTrie.Loaded, Reach, Contents, IsRoot;
    NotAmongNew(was, key, value);
    ws.accountTrie.LoadedIs(HashOf(was), Reach(ws.accountTrie.root));
  }

  lemma NotAmongNew(was: Node, key: Key, value: Value)
    requires IsRoot(was, |key|) && Contents(was) != map[]
    requires key !in Contents(was) || Contents(was)[key] != value
    ensures HashOf(was) !in Reach(UpsertRoot(was, key, value)) && HashOf(was) != EMPTY_HASH
  {
    hide BelowReach, Upserted, WellFormed, Beside;
    assert UpsertRoot(was, key, value) != was by {
      hide UpsertRoot, IsRoot, Contents;
      UpsertIsUpdate(was, key, value);
      assert Contents(was)[key := value][key] == value;
    }
    assert was == Branch(was.hashes);
    RootAt(was, key);
    UpsertUnder(was.hashes, key, 0, value);
    var d := if key[0] in was.hashes then Upserted(was.hashes[key[0]].node, key, 1, value) else Leaf(key, value);
    hide Contents;
    ReachReplaced(was.hashes, key[0], d);
    NotBelowItself(was);
    ReachOfBranch(was.hashes, key[0]);
  }
}
