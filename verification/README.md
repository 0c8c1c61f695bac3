# Verified core of iotex-core

A Dafny model of the stateful core of a blockchain node, with proofs about whole runs of it:

- **The trie** (`db/trie`). Nodes are values; a node's hash is a free constructor over the node, so that equal
  hashes mean equal nodes. `TrieNodes` has the shape of a trie, `TrieOps` what search, upsert and delete come to,
  `TrieMap` the map they implement over every history, `TrieCanonical` how far the shape is a function of the map,
  `TrieMarks` what the root hash depends on besides the map,
  `TrieReach` and `TrieStore` the content-addressed store that is changed node by node through the overlay below,
  `LeafIterator` the walk over it.
- **The write-back overlay** (`db/batch.go`, `db/kv_cache.go`, `db/kvstore4trie.go`, `db/db.go`). `KvBatch` is the queue
  with its cache, snapshots and reverts as a state machine; `KvOverlay` has the objects that refine it, caches shared
  between a batch and its snapshots included.
- **The working set** (`state/factory/workingset.go`, in `WorkingSet`): the account trie over the overlay, with snapshots
  that remember the trie's root.
- **The action pool** (`actpool`). `Heaps` has the heap operations, `ActQueue` one account's queue, `ActPool` the pool.
- **Action selection, nonce validation and minting** (`Selection`, `NonceValidation`, `Minting`): the iterator by price,
  the validator's check of the nonces, and the producer that runs what the iterator yields.
- **The block store and address index** (`BlockIndex`, `BlockDao`): an incremental index against a scan of the chain.
- **The sync buffer** (`SyncBuffer`), **the Merkle root** (`MerkleTree`) and **the consensus state machine**
  (`ConsensusFsm`).

Where the code keeps state in fields that its methods change, the model is a class with those fields; its methods are
proved against functions on values, and what the code promises is proved about those functions and as class invariants.
Clocks, the chain's answers, the consensus context, the coding of trie nodes as bytes and the outcome of committing a
block are parameters.

Main results:

1. Over every history of upserts and deletes from the empty trie, the trie answers like a finite map
   (`TrieMap.RunIsTheMap`), and the store, seen through the cached batch, holds exactly the nodes under the current root,
   none shared, none left over (`TrieStore.BranchRootTrie.Upsert`, `TrieStore.BranchRootTrie.Delete`).
2. Two histories give the same map exactly if they give the same shape once extensions with an empty path are erased
   (`TrieMap.HistoriesAgree`). The root hash itself does depend on the order (`TrieCanonical.OrderShowsInTheHash`), and
   exactly so: an extension with an empty path comes where a new key opens a fork right above a fork, and goes when
   either closes, so two histories give one root hash exactly if their maps, and the forks their maps went through, say
   so (`TrieMarks.SameHashIff`). Taking a new key back gives the very root there was (`TrieMarks.DeleteUndoesUpsert`).
3. A cached batch answers like the replay of its queue exactly if no namespace is a prefix of another
   (`KvBatch.AnswersLikeQueueIff`), and the overlay like the flushed store exactly if none of them is in that relation to
   its bucket (`KvOverlay.OverlayRightIff`). Reverts restore queue and cache (`KvBatch.RevertRestores`), except that a
   snapshot written to after a revert no longer is what it was; in every run the cache is right all along exactly if
   every revert is to a snapshot whose writes were given back (`KvBatch.AlwaysRightIff`). For the working set above it:
   in every run of changes with attempts nested as deep as may be, an attempt that is given up leaves no trace in the
   accounts (`WorkingSets.WorkingSet.Run`), and what was committed is found again from the root hash
   (`WorkingSets.CommitAndOpen`).
4. The pool's table is at all times the disjoint union of its queues, and what it offers after a reset is each account's
   longest run that the balance pays for (`ActPools.ActPool.PendingActionMap`). Which actions are accepted is said in
   plain numbers (`ActPools.ActPool.Add`). An accepted action is in the pool with
   any expiry time. Whether its account then still agrees with the chain can be told before the call: exactly if the
   sweep of the deadlines with the new one pushed leaves the actions paid for (`ActPools.ActPool.Add`), and whatever
   order the deadlines have in the heap, exactly if the action is not the awaited one or no action paid for is past its
   deadline (`ActPoolSpec.KeepsSettledIff`). So it does in every run of calls within one expiry time
   (`ActPools.ActPool.StaysSettled`). A block is picked by price, round by round, and an action skipped for the gas limit
   costs at most one account; the block passes the validator exactly if no account has an action in it after a skipped
   one (`Minting.MintBlock`).
5. Under every run of pushes and pops of blocks, what queries see of the index is what a scan of the chain finds
   (`BlockDao.BlockDAO.PutBlock`, `BlockDao.BlockDAO.DeleteTipBlock`); a block at another height breaks that unless it is
   in the chain and empty (`BlockIndex.PutAgreesIff`). Entries of a deleted block stay in the store
   exactly for addresses that occur more than twice on a side of it (`BlockIndex.CleanIff`).
6. In every run of the consensus machine every commit follows an endorsement of the same round
   (`ConsensusFsmSpec.RunKeepsPhase`, `ConsensusFsmSpec.CommitIsEndorsed`), and that endorsement was the context's own
   answer to an earlier event (`ConsensusFsmSpec.CommitHasEndorsement`). Under a fair context each state has the event
   that drives it on pending (`ConsensusFsmSpec.RunKeepsDriven`), and timeouts alone end a round
   (`ConsensusFsmSpec.RoundEnds`).

Where the code and what one would expect of it differ, the model follows the code:

- `cleanTimeout` looks past the entry after each one it removes; all expired entries go exactly when no two of them
  stand side by side (`ActQueueSpec.SweepIff`).
- The leaf iterator returns every value appended to itself (`LeafIterator.Iterator.Next`).
- `deleteActions` adds up its offsets and so deletes places 0, 1, 3, 6, ... above the count (`BlockDao.EntryStays`).
- The Merkle root does not tell leaves from inner hashes (`MerkleTree.PairsDoNotShow`).
- A Merkle tree over a single all-zero hash has no root: the call fails (`MerkleTree.Merkle.HashTree`).
- A first action refused for its nonce or its cost leaves its account with an empty queue in the pool; a refused action
  changes nothing exactly if it was refused before that or the account had a queue (`ActPools.ActPool.Add`,
  `ActPools.RefusedFirst`).
- An expired action is swept out without its cost being given back to the pending balance
  (`ActPools.ExpiryUnsettles`).
- A snapshot of the working set that was reverted to, then written past, cannot be reverted to again: the second revert
  fails, for every change of a state (`WorkingSets.SecondRevertFails`).
- After an action that hits the gas limit, the account popped may be another one, and the block then has a gap in the
  nonces (`Minting.SkipLeavesGap`).

## Model

| member | source | states |
|---|---|---|
| `TrieNodes.EntriesHavePrefix` | db/trie/trienode.go:25-41 | every key under a node has the full key length and continues the path to the node |
| `TrieNodes.TwoEntries` | db/trie/branchnode.go:92-126 | a branch that is not the root tells two stored keys apart at its own position: it has at least two children |
| `TrieNodes.NotBelowItself` | db/trie/branchroottrie.go:185-190 | no node is reachable from its own children |
| `TrieNodes.BelowIsWellFormed` | db/trie/branchroottrie.go:153-175 | whatever is reachable from a well-formed node is well formed at some longer path, and stores a part of its entries |
| `TrieNodes.DisjointReach` | db/trie/branchroottrie.go:139-151 | nodes at positions neither of which continues the other share no stored node |
| `TrieNodes.SiblingsDisjoint` | db/trie/branchnode.go:18-21 | two children of one branch share no stored node, so deleting under one never takes from the other |
| `TrieOps.CommonPrefix` | db/trie/trienode.go:44-52 | the length of the longest common prefix: equal up to it, different at it |
| `TrieOps.SearchFinds` | db/trie/branchnode.go:147-154 | a search fails exactly if the key is not stored, and else finds the leaf with that key and its value |
| `TrieOps.UpsertLeaf` | db/trie/leafnode.go:66-91 | upserting at a leaf leaves a well-formed node that stores the leaf's entry, unless it had the same key, and the new one |
| `TrieOps.UpsertSplit` | db/trie/extensionnode.go:107-129 | splitting an extension leaves a well-formed node with the old entries and the new one, also where the rest of the path is empty |
| `TrieOps.UpsertMeans` | db/trie/extensionnode.go:93-130 | after an upsert at any node the entries are the old ones without the key, plus the new one; a branch stays a branch and the shape is well formed |
| `TrieOps.UpsertInBranch` | db/trie/branchnode.go:129-145 | the same for a branch, the root included, which may have any number of children |
| `TrieOps.LengthenMeans` | db/trie/branchnode.go:99-123 | the only child left takes the branch's place: well formed one byte higher, with the same entries |
| `TrieOps.ShortenMeans` | db/trie/extensionnode.go:77-90 | an extension over a changed child is merged into a well-formed node with the child's entries |
| `TrieOps.DeleteMeans` | db/trie/extensionnode.go:60-91 | a delete fails exactly if the key is not stored; else what is left is well formed and has all other entries, and nothing is left only of a leaf |
| `TrieOps.DeleteInBranch` | db/trie/branchnode.go:78-127 | the same for a branch, of which something is always left: the panics in the code are never reached |
| `TrieOps.DeleteRootMeans` | db/trie/branchroottrie.go:93-114 | the same for the root, which stays a branch however few children it has |
| `TrieCanonical.EraseKeepsEntries` | db/trie/extensionnode.go:107-108 | erasing extensions with an empty path changes no entry |
| `TrieCanonical.ForkPoint` | db/trie/branchnode.go:92-126 | where a set of entries forks is determined by the entries |
| `TrieCanonical.SameShape` | db/trie/extensionnode.go:74-90 | nodes at one position with the same entries are the same up to extensions with an empty path |
| `TrieCanonical.ShapeIsTheMap` | db/trie/branchroottrie.go:116-133 | two tries hold the same entries if and only if their shapes agree up to extensions with an empty path |
| `TrieCanonical.UpsertRootMeans` | db/trie/branchroottrie.go:116-133 | upserting at the root keeps a root and replaces the key's entry |
| `TrieCanonical.OrderIsErased` | db/trie/branchroottrie.go:116-133 | two entries with different keys, put into any trie in either order, give one shape once extensions with an empty path are erased |
| `TrieCanonical.OrderShowsInTheHash` | db/trie/extensionnode.go:107-129 | three keys put in two orders give different root hashes although the erased shapes agree |
| `TrieMap.OneValuePerKey` | db/trie/branchroottrie.go:77-91 | a trie never stores two values for a key |
| `TrieMap.UpsertIsUpdate` | db/trie/branchroottrie.go:116-133 | upsert is the update of a finite map |
| `TrieMap.DeleteIsRemove` | db/trie/branchroottrie.go:93-114 | delete fails exactly on absent keys and else is removal from a finite map |
| `TrieMap.SearchIsLookup` | db/trie/branchroottrie.go:77-91 | search is the lookup in a finite map |
| `TrieMap.StepKeepsRoot` | db/trie/branchroottrie.go:93-133 | every operation, with a key of a wrong length too, keeps the root well formed and does to the contents what it does to a map |
| `TrieMap.RunIsTheMap` | db/trie/branchroottrie.go:77-133 | after every history from the empty trie the contents are those of the same history on a map |
| `TrieMap.HistoriesAgree` | db/trie/branchroottrie.go:60-75 | two histories give the same map if and only if they give the same erased shape; equal root hashes imply equal maps |
| `TrieMarks.MarkForks` | db/trie/extensionnode.go:107-129 | an extension with an empty path stands where the stored keys fork, and right below another fork |
| `TrieMarks.SameTree` | db/trie/extensionnode.go:107-108 | well-formed nodes at one position with the same entries and the same extensions with an empty path are the same node |
| `TrieMarks.SameRootIff` | db/trie/branchroottrie.go:185-190 | two roots have one hash if and only if they hold the same map and have extensions with an empty path at the same positions |
| `TrieMarks.UpsertLeafMarks` | db/trie/leafnode.go:66-91 | splitting a leaf makes no extension with an empty path |
| `TrieMarks.SplitOpens` | db/trie/extensionnode.go:107-129 | a key that leaves a path opens a fork right above one exactly if it leaves at the path's last byte |
| `TrieMarks.UpsertMarks` | db/trie/extensionnode.go:93-130 | after an upsert at any node there is an extension with an empty path exactly where there was one or the new key opened a fork right above a fork |
| `TrieMarks.LengthenMarks` | db/trie/branchnode.go:99-123 | the child that takes its branch's place loses its own empty path and keeps all others below |
| `TrieMarks.ShortenMarks` | db/trie/extensionnode.go:74-90 | an extension over a changed child keeps its empty path exactly if the child is still a branch |
| `TrieMarks.DeleteMarks` | db/trie/extensionnode.go:60-91 | after a delete at any node an extension with an empty path is left exactly where there was one and both forks, at it and right above it, are still there |
| `TrieMarks.DeleteRootMarks` | db/trie/branchroottrie.go:93-114 | the same for the root, which counts as a fork |
| `TrieMarks.StepIsTheMarks` | db/trie/branchroottrie.go:93-133 | what every operation does to these positions is told from the keys of the map before it |
| `TrieMarks.RunIsTheMarks` | db/trie/branchroottrie.go:93-133 | after every history they are those that the same history of maps leaves |
| `TrieMarks.SameHashIff` | db/trie/branchroottrie.go:60-75 | two histories end with one root hash if and only if their maps and these positions, computed on maps alone, end alike |
| `TrieMarks.DeleteUndoesUpsert` | db/trie/branchroottrie.go:93-133 | for every trie and every key not in it, upserting the key and deleting it gives the very root there was |
| `TrieReach.BranchNotUnder` | db/trie/branchnode.go:193-207 | a branch is not reachable from what is put in a child's place, so deleting the old branch takes nothing of the new one |
| `TrieReach.ExtensionNotUnder` | db/trie/extensionnode.go:188-198 | an extension is not reachable from any branch put at its end |
| `TrieReach.HolderNotUnder` | db/trie/branchnode.go:85-91 | a node that stores a key is not reachable from one that does not |
| `TrieReach.UpsertUnder` | db/trie/branchnode.go:129-145 | upserting below a branch never makes a node with the branch's own hash |
| `TrieReach.UpsertAtEnd` | db/trie/extensionnode.go:96-106 | upserting below an extension never makes a node with the extension's own hash |
| `TrieReach.DeleteUnder` | db/trie/branchnode.go:78-91 | deleting below a branch never leaves a node with the branch's own hash |
| `TrieReach.DeleteAtEnd` | db/trie/extensionnode.go:60-76 | deleting below an extension always leaves something, never with the extension's own hash |
| `TrieReach.ApartFromChild` | db/trie/branchnode.go:78-91 | what is stored outside a branch, together with the branch and its other children, is told apart from the child by a key |
| `TrieReach.NotApart` | db/trie/extensionnode.go:78-82 | an extension made by merging is not stored anywhere else |
| `TrieStore.CommonPrefixLength` | db/trie/trienode.go:44-52 | the 8-bit counter computes the length of the common prefix and does not wrap for keys under 256 bytes |
| `TrieStore.BranchRootTrie.constructor` | db/trie/trie.go:78-95 | an empty trie over a view of a store, for key lengths 1 to 128; it is right if the store has no nodes |
| `TrieStore.BranchRootTrie.PutNodeIntoDB` | db/trie/branchroottrie.go:144-151 | the store, seen through the cached batch, then holds the node too; the empty root is never stored; writes are only added to the batch |
| `TrieStore.BranchRootTrie.DeleteNodeFromDB` | db/trie/branchroottrie.go:139-142 | the store then holds all but the node; writes are only added to the batch |
| `TrieStore.BranchRootTrie.LoadNodeFromDB` | db/trie/branchroottrie.go:153-175 | loads exactly the nodes held, and the empty root without the store |
| `TrieStore.BranchRootTrie.SearchNode` | db/trie/trienode.go:35-38 | reads every node it needs from the store and finds what the search on values finds |
| `TrieStore.BranchRootTrie.SearchExtension` | db/trie/extensionnode.go:132-144 | the same for an extension |
| `TrieStore.BranchRootTrie.SearchBranch` | db/trie/branchnode.go:147-154 | the same for a branch |
| `TrieStore.BranchRootTrie.UpsertNode` | db/trie/trienode.go:35-38 | whatever else the store holds it still holds, together with exactly the nodes of the new subtree in place of the old one's |
| `TrieStore.BranchRootTrie.UpsertLeafNode` | db/trie/leafnode.go:66-91 | the same for a leaf, updated in place or split |
| `TrieStore.BranchRootTrie.UpsertExtension` | db/trie/extensionnode.go:93-106 | the same for an extension whose path the key follows or leaves |
| `TrieStore.BranchRootTrie.SplitExtension` | db/trie/extensionnode.go:107-129 | the same where the key leaves the path |
| `TrieStore.BranchRootTrie.SwapExtension` | db/trie/extensionnode.go:107-118 | the store has the rest of the extension and the new leaf in place of the extension, and loses nothing else |
| `TrieStore.BranchRootTrie.UpsertBranch` | db/trie/branchnode.go:129-145 | the same for a branch with or without a child for the key |
| `TrieStore.BranchRootTrie.UpdateExtensionChild` | db/trie/extensionnode.go:188-198 | the store swaps the extension for one with the new child and loses nothing else |
| `TrieStore.BranchRootTrie.UpdateBranchChild` | db/trie/branchnode.go:193-207 | the store swaps the branch for one with the new child and loses nothing else |
| `TrieStore.BranchRootTrie.DropBranchChild` | db/trie/branchnode.go:193-207 | the store swaps the branch for one without the child and loses nothing else |
| `TrieStore.BranchRootTrie.DeleteNode` | db/trie/trienode.go:35-38 | whatever else the store holds it still holds, together with exactly the nodes of what is left; a failed delete writes nothing to the batch |
| `TrieStore.BranchRootTrie.DeleteInExtension` | db/trie/extensionnode.go:60-91 | the same for an extension |
| `TrieStore.BranchRootTrie.MergeExtension` | db/trie/extensionnode.go:74-90 | an extension gives way to its changed child, merged with it where that is an extension too, and no other stored node is hit |
| `TrieStore.BranchRootTrie.DeleteInBranchNode` | db/trie/branchnode.go:78-127 | the same for a branch |
| `TrieStore.BranchRootTrie.Collapse` | db/trie/branchnode.go:95-123 | a branch with one child left is replaced by that child in the store |
| `TrieStore.BranchRootTrie.Get` | db/trie/branchroottrie.go:77-91 | the value of the map, an error for an absent key, another for a key of the wrong length |
| `TrieStore.BranchRootTrie.Upsert` | db/trie/branchroottrie.go:116-133 | the map is updated at the key, and the store, seen through the cached batch, holds exactly the non-empty nodes under the new root; empty paths come as the keys say; a key of the wrong length changes nothing |
| `TrieStore.BranchRootTrie.Delete` | db/trie/branchroottrie.go:93-114 | the key is removed, or nothing at all is written if it was absent or of the wrong length; the store holds exactly the nodes under the root; empty paths go as the keys say |
| `TrieStore.BranchRootTrie.SetRootHash` | db/trie/branchroottrie.go:60-75 | succeeds exactly if the overlay has a branch under the hash, or for the empty root; a root whose nodes are all stored is reopened with its map; a failure changes nothing |
| `LeafIterator.TopIsNotUnder` | db/trie/leafiterator.go:38-54 | the node taken off the stack is not reachable from the rest of it, so the nodes under the stack become fewer |
| `LeafIterator.ChildrenPushed` | db/trie/leafiterator.go:49-53 | pushing the children in place of a node keeps the stack and the returned keys covering all keys once, with fewer nodes to go |
| `LeafIterator.LeafReturned` | db/trie/leafiterator.go:43-48 | a leaf's key was not returned before, and the rest of the stack covers what is still to come |
| `LeafIterator.AllReturned` | db/trie/leafiterator.go:56-56 | with an empty stack the keys returned are exactly the keys of the map, each once |
| `LeafIterator.Iterator.constructor` | db/trie/leafiterator.go:25-35 | starts with every key of the trie still to come |
| `LeafIterator.Iterator.ChildNodes` | db/trie/branchnode.go:64-76 | all children are in the store and each is loaded once |
| `LeafIterator.Iterator.Next` | db/trie/leafiterator.go:38-57 | a key not returned before with its value doubled, as long as there is one; the end is reported exactly when all keys were returned |
| `KvBatch.CacheIsLastWrite` | db/batch.go:238-253 | where no other namespace in the queue begins this one or is begun by it, the cache answers with the last write to a record |
| `KvBatch.AnswersLikeQueueIff` | db/batch.go:324-326 | for a set of namespaces the cache answers like the queue on all writes if and only if none is a prefix of another |
| `KvBatch.StepBounded` | db/batch.go:289-303 | every operation keeps the recorded sizes within the queue, so truncation is always in bounds |
| `KvBatch.StepFaithful` | db/batch.go:238-303 | an allowed operation keeps every untouched snapshot the replay of its part of the queue |
| `KvBatch.CacheIsReplay` | db/batch.go:238-303 | over every run that reverts to no snapshot written to since a revert, the cache is the replay of the queue |
| `KvBatch.ShotStays` | db/batch.go:278-286 | a snapshot's part of the queue stays the same until the snapshot is thrown away |
| `KvBatch.RevertRestores` | db/batch.go:289-303 | reverting gives back the queue as it was at the snapshot, and the cache too in such a run, whatever happened between |
| `KvBatch.SameAfterIff` | db/kv_cache.go:57-77 | further writes leave a cache as it was if and only if each record they touch was last given back what it had |
| `KvBatch.RevertRightIff` | db/batch.go:289-303 | from a state that was right so far, a revert leaves the right cache if and only if every record written into the snapshot was last given back what it had |
| `KvBatch.AlwaysRightIff` | db/batch.go:238-303 | in every run, with any reverts, the cache is what the queue comes to at every point if and only if every revert is to a snapshot whose writes were given back |
| `KvBatch.SecondRevertKeepsWrite` | db/batch.go:300-301 | reverting twice to one snapshot with a put between leaves an empty queue and a cache that still has the put |
| `KvBatch.UntouchedGivenBack` | db/batch.go:289-303 | a snapshot that was not written to can be reverted to |
| `KvOverlay.KvCache.Write` | db/kv_cache.go:57-61 | the record is live and no tombstone; nothing else changes |
| `KvOverlay.KvCache.Evict` | db/kv_cache.go:73-77 | the record is a tombstone and not live; nothing else changes |
| `KvOverlay.KvCache.Clone` | db/kv_cache.go:87-101 | a new cache with the same records and tombstones |
| `KvOverlay.KvCache.Clear` | db/kv_cache.go:79-85 | no records and no tombstones |
| `KvOverlay.CachedBatch.constructor` | db/batch.go:205-212 | the initial state of the machine |
| `KvOverlay.CachedBatch.Put` | db/batch.go:238-244 | the put step of the machine, the write showing in the snapshot that the current cache may be; cache objects and snapshots stay |
| `KvOverlay.CachedBatch.Delete` | db/batch.go:247-253 | the delete step of the machine, likewise |
| `KvOverlay.CachedBatch.Get` | db/batch.go:270-275 | what the replay of the writes the current cache has seen answers |
| `KvOverlay.CachedBatch.Snapshot` | db/batch.go:278-286 | the snapshot step: the tag is returned, the size and a new copy of the cache are recorded after those there were |
| `KvOverlay.CachedBatch.Revert` | db/batch.go:289-303 | the revert step, which fails exactly on a tag that does not exist, changing nothing, and else makes the recorded cache itself the current one and forgets later snapshots |
| `KvOverlay.CachedBatch.Clear` | db/batch.go:256-267 | back to the initial state |
| `KvOverlay.ApplyMeans` | db/db.go:66-89 | a write to the store changes the answer for its own record only |
| `KvOverlay.ReplayMeans` | db/db.go:92-125 | after a replay each record has its last write in the queue, or else what the store had |
| `KvOverlay.StoreKeysMeetIff` | db/db.go:66-89 | two records share a place in the store if and only if they are one, or the longer namespace has a dot where the shorter ends and the keys make up for it |
| `KvOverlay.OverlayRightIff` | db/kvstore4trie.go:94-107 | over some namespaces, for all stores and queues, the overlay answers for a bucket as the store will after a flush if and only if no other of them begins the bucket or is begun by it |
| `KvOverlay.MemKVStore.Put` | db/db.go:66-71 | one write applied |
| `KvOverlay.MemKVStore.Get` | db/db.go:74-83 | a namespace never written to has no records |
| `KvOverlay.MemKVStore.Delete` | db/db.go:86-89 | one deletion applied; the namespace stays known |
| `KvOverlay.MemKVStore.Commit` | db/db.go:92-125 | the whole queue applied in order, and the batch back to its initial state |
| `KvOverlay.KVStoreForTrie.constructor` | db/kvstore4trie.go:53-66 | a view of a bucket of any store through any batch |
| `KvOverlay.KVStoreForTrie.Get` | db/kvstore4trie.go:94-107 | what the cache knows, else what the store has; over a right cache with the bucket apart from other namespaces, the store with the queued writes applied in order |
| `KvOverlay.KVStoreForTrie.Put` | db/kvstore4trie.go:87-91 | one write step of the batch, on the same cache and after the same snapshots; in that case the view is updated at the key and nowhere else |
| `KvOverlay.KVStoreForTrie.Delete` | db/kvstore4trie.go:79-84 | one delete step of the batch, likewise; in that case the view loses the key and nothing else |
| `KvOverlay.KVStoreForTrie.Flush` | db/kvstore4trie.go:110-112 | the base store becomes the view, queue, the same cache and snapshots are empty, and no answer changes |
| `WorkingSets.HasInAfter` | action/protocol/execution/evm/evmstatedbadapter.go:640-648 | a write to another namespace leaves the nodes in a bucket of the flushed store alone |
| `WorkingSets.WorkingSet.constructor` | state/factory/workingset.go:90-96 | no snapshots yet |
| `WorkingSets.NewWorkingSet` | state/factory/workingset.go:84-110 | there is one exactly if the store has a branch under the root, or the root is the empty one; it has nothing queued, and the accounts if all nodes are stored |
| `WorkingSets.NewTrie` | state/factory/workingset.go:97-105 | a trie over a store with nothing queued sees what the store has |
| `WorkingSets.WorkingSet.State` | state/factory/workingset.go:255-265 | the state in the map of accounts, or why there is none |
| `WorkingSets.WorkingSet.PutState` | state/factory/workingset.go:268-275 | the map is updated at the key, and every snapshot still brings back its accounts |
| `WorkingSets.WorkingSet.DelState` | state/factory/workingset.go:278-280 | the key is removed, or an error and nothing changes; every snapshot still brings back its accounts |
| `WorkingSets.WorkingSet.PutElsewhere` | action/protocol/execution/evm/evmstatedbadapter.go:647-647 | a write to another namespace of the same batch is queued and changes no account and no snapshot |
| `WorkingSets.WorkingSet.Snapshot` | state/factory/workingset.go:215-219 | remembers the root; cutting the queue back to here will leave a store with exactly the nodes under it |
| `WorkingSets.WorkingSet.CutBack` | state/factory/workingset.go:222-224 | after the batch went back, the store holds exactly the nodes under the remembered root, if the writes into the snapshot were given back |
| `WorkingSets.WorkingSet.Revert` | state/factory/workingset.go:221-231 | fails and changes nothing for a snapshot that does not exist; else succeeds exactly if the overlay has the remembered root, and if the writes into the snapshot were given back it reopens the accounts as they were then, with the earlier snapshots intact |
| `WorkingSets.WorkingSet.Commit` | state/factory/workingset.go:234-242 | the store becomes the view and holds exactly the nodes under the root; the accounts stay, the snapshots are gone |
| `WorkingSets.CommitAndOpen` | state/factory/factory.go:241-245 | a new working set over the committed store from the root hash has the same accounts |
| `WorkingSets.WorkingSet.Run` | state/factory/workingset.go:215-280 | every run of changes with attempts nested as deep as may be, each kept or given up, comes to the map on which given-up attempts count for nothing |
| `WorkingSets.WorkingSet.Try` | action/protocol/rewarding/protocol.go:75-80 | a snapshot, changes, and a revert leave the accounts as they were, whatever attempts were made between |
| `WorkingSets.SecondRevertFails` | state/factory/workingset.go:221-231 | for every working set with some account and every change of a state, reverting, changing and reverting again to one snapshot fails |
| `WorkingSets.NotAmongNew` | db/trie/branchnode.go:193-207 | the root before a change of a state is not among the nodes under the new root |
| `Heaps.FrontIsLeast` | actpool/actqueue.go:29-33 | the front of a heap is least |
| `Heaps.Push` | actpool/actqueue.go:118-118 | a heap with one more element, which rose past every ancestor with a greater key |
| `Heaps.Pop` | actpool/actqueue.go:128-128 | a heap without a least element, which is returned |
| `Heaps.Init` | actpool/actqueue.go:271-271 | a heap of the same elements |
| `Heaps.FixFront` | actpool/actioniterator/actioniterator.go:79-80 | a heap with the front replaced |
| `Heaps.Sort` | actpool/actqueue.go:170-170 | the same elements in order |
| `ActQueueSpec.LongestRun` | actpool/actqueue.go:156-167 | the runs of consecutive nonces that a balance pays for are exactly those that end no later than the loop does |
| `ActQueueSpec.RefreshedKeeps` | actpool/actqueue.go:169-195 | an update drops an action exactly if one past the run, no later than it, costs more than is left |
| `ActQueueSpec.UpdateSettles` | actpool/actqueue.go:148-197 | an update from a paid prefix leaves pending balance plus the cost of the run equal to the balance, the run complete, and every later action payable on its own |
| `ActQueueSpec.PutSettles` | actpool/actqueue.go:112-121 | putting a payable action in keeps that, except that the awaited nonce calls for an update |
| `ActQueueSpec.SettledRun` | actpool/actqueue.go:230-248 | in such a state the actions offered are exactly the run up to the pending nonce, the longest the balance pays for |
| `ActQueueSpec.SweepIff` | actpool/actqueue.go:135-146 | a sweep takes only expired entries, and all of them if and only if no two stand side by side |
| `ActQueues.SweepLeavesExpired` | actpool/actqueue.go:135-146 | two expired entries in a heap of which the sweep leaves one |
| `ActQueues.CutIsTrim` | actpool/actqueue.go:169-195 | cutting the sorted index at the first unpayable action leaves the run and the actions below that one's nonce |
| `ActQueues.ActQueue.constructor` | actpool/actqueue.go:89-104 | an empty queue awaiting nonce 1 |
| `ActQueues.ActQueue.Put` | actpool/actqueue.go:113-121 | refused exactly if the nonce is taken; else in the queue with its deadline, pushed onto the heap of the same nonces |
| `ActQueues.ActQueue.FilterNonce` | actpool/actqueue.go:124-133 | exactly the nonces below the threshold go, and are returned once each |
| `ActQueues.ActQueue.CleanTimeout` | actpool/actqueue.go:135-146 | the index becomes its sweep, and the actions gone are returned once each |
| `ActQueues.ActQueue.EnoughBalance` | actpool/actqueue.go:276-287 | whether the pending balance pays for the action, charged only if asked and paid |
| `ActQueues.ActQueue.RemoveActs` | actpool/actqueue.go:264-273 | exactly the nonces from the place on go, are returned once each, and the index is a heap again |
| `ActQueues.ActQueue.PayRun` | actpool/actqueue.go:158-167 | ends at the end of the longest payable run, with its cost paid |
| `ActQueues.ActQueue.FindCut` | actpool/actqueue.go:169-194 | the first place past the run whose action the balance cannot pay |
| `ActQueues.ActQueue.CutFrom` | actpool/actqueue.go:169-196 | what stays is the run and the payable actions up to the first unpayable one; the rest is returned once each |
| `ActQueues.ActQueue.UpdateQueue` | actpool/actqueue.go:149-197 | pending nonce and balance are those of the longest payable run of what the sweep leaves; what stays is that run and the payable actions up to the first unpayable one; kept and returned split the old queue |
| `ActQueues.ActQueue.PendingActs` | actpool/actqueue.go:230-248 | the consecutive run after the confirmed nonce |
| `ActPoolSpec.QueueShrinks` | actpool/actpool.go:376-384 | taking what a queue returned out of the table leaves the table the union of the queues again |
| `ActPoolSpec.QueueGrows` | actpool/actpool.go:341-347 | a new action is in no other queue, and adding it keeps table and gas right |
| `ActPoolSpec.EmptyQueue` | actpool/actpool.go:394-396 | an empty queue may be dropped without touching the table |
| `ActPoolSpec.RefreshedOffers` | actpool/actpool.go:405-423 | a queue updated from the confirmed nonce and full balance agrees with the chain and offers the longest payable run of what expiry leaves |
| `ActPoolSpec.EnteredHas` | actpool/actpool.go:341-353 | an accepted action is in its queue, whatever expiry takes |
| `ActPoolSpec.StaysSettledIff` | actpool/actpool.go:341-353 | a queue that agrees with the chain still does after taking an action in if and only if all the actions it had paid for are still there |
| `ActPoolSpec.KeepsSettledIff` | actpool/actpool.go:341-353 | before the call: whatever order the heap of deadlines has, the queue will still agree if and only if the action is not the awaited one, actions do not expire, or no action paid for is past its deadline |
| `ActPoolSpec.Unsettles` | actpool/actqueue.go:135-146 | else there is an order of the heap in which it will not |
| `ActPoolSpec.SparedIff` | actpool/actqueue.go:113-146 | with the heap known before the call, the actions paid for are all there afterwards if and only if the sweep of the heap with the new entry pushed leaves them |
| `ActPoolSpec.FreshStay` | actpool/actqueue.go:135-146 | none of these goes as long as none is past its deadline |
| `ActPoolSpec.SafeIff` | actpool/actqueue.go:135-146 | a sweep keeps all actions below a nonce, whatever order the heap has, if and only if none of them is past its deadline |
| `ActPools.InWindow` | actpool/actpool.go:317-324 | where nothing wraps, the 64-bit test passes exactly the next so many nonces after the confirmed one |
| `ActPools.JudgementMeans` | actpool/actpool.go:312-339 | taken exactly if the nonce is free, in the window and the cost within the balance; each refusal exactly for its own reason |
| `ActPools.ActPool.constructor` | actpool/actpool.go:81-114 | an empty pool |
| `ActPools.ActPool.RemoveInvalidActs` | actpool/actpool.go:376-384 | exactly the given actions leave the table, and the gas total stays that of the table without underflow |
| `ActPools.ActPool.UpdateAccount` | actpool/actpool.go:387-397 | the queue is updated from its pending nonce and dropped if empty; deadlines are only forgotten; table, gas and caps stay right |
| `ActPools.ActPool.RemoveConfirmedActs` | actpool/actpool.go:357-374 | in every queue exactly the confirmed actions go; a queue is dropped exactly if nothing is left |
| `ActPools.ActPool.RefreshAccount` | actpool/actpool.go:406-422 | one account updated from its confirmed nonce and its balance on the chain, deadlines only forgotten |
| `ActPools.ActPool.Reset` | actpool/actpool.go:399-424 | every queue agrees with the chain, offers the longest payable run of what expiry leaves and keeps what an update from the chain keeps; a queue is dropped only if that is nothing; no queue is new, and deadlines are only forgotten |
| `ActPools.ActPool.PendingActionMap` | actpool/actpool.go:141-153 | for every account exactly the longest run after the confirmed nonce whose cost stays within the balance, over what expiry leaves; the queues are left as by a reset |
| `ActPools.ActPool.OpenAccount` | actpool/actpool.go:297-311 | a new account's queue starts from the chain's nonce and balance |
| `ActPools.ActPool.AdmitAndUpdate` | actpool/actpool.go:341-353 | with any expiry time, the action is in the queue and in the table with its deadline, and if it was awaited the queue is the update of what the sweep of the heap with the new entry leaves |
| `ActPools.ActPool.TakeIn` | actpool/actpool.go:341-353 | the same, and all queues agree with the chain after as before exactly if that sweep leaves the actions paid for, so always if no such action is past its deadline |
| `ActPools.ActPool.TakeOrRefuse` | actpool/actpool.go:312-353 | refused for a taken nonce, a nonce out of the window or a cost above the pending balance, and only then; nothing changes if refused, the action is in if accepted |
| `ActPools.ActPool.EnqueueAction` | actpool/actpool.go:291-354 | the same from the pool's state before: a refused sender has the queue it had or a new empty one, other accounts' queues stay, and all queues agree with the chain after as before exactly if the action is refused or the sweep leaves the actions paid for |
| `ActPools.ActPool.Add` | actpool/actpool.go:155-224 | which check refuses an action, in order; past the early checks it is accepted exactly if the nonce is free, one of the next so many, and the cost within the pending balance, and each refusal has its own exact reason; a refusal changes nothing exactly if it came before the queue checks or the sender had a queue; an accepted action is in the pool with its deadline, and the queues agree with the chain after as before exactly if the sweep it brings about leaves the actions paid for; table, gas and caps stay right |
| `ActPools.ActPool.StaysSettled` | actpool/actpool.go:155-224 | over every run of adds and resets within one expiry time on an unchanged chain, pending balance plus the cost of the run is the balance in every queue |
| `ActPools.ExpiryUnsettles` | actpool/actqueue.go:149-167 | for any account, a run of two adds: the first action is paid for and expires, the second is accepted, and pending balance and run no longer add up to the balance |
| `ActPools.RefusedFirst` | actpool/actpool.go:297-339 | any first action with a cost, in a pool whose chain knows no balance: refused, and the pool has one account |
| `ActionIteration.OneYielded` | actpool/actioniterator/actioniterator.go:87-95 | yielding a head keeps every account's order, with nothing lost or repeated |
| `ActionIteration.TopIsBest` | actpool/actioniterator/actioniterator.go:20-24 | the top of the heap is the head of its account with the highest price among all heads |
| `ActionIteration.TakeHeads` | actpool/actioniterator/actioniterator.go:52-65 | one head of each account that has actions, and the rest behind it |
| `ActionIteration.ActionIterator.constructor` | actpool/actioniterator/actioniterator.go:52-71 | everything offered is still to come |
| `ActionIteration.ActionIterator.LoadNextActionForTopAccount` | actpool/actioniterator/actioniterator.go:74-84 | the top head is replaced by its account's next action, or goes if there is none; the heads stay a heap |
| `ActionIteration.ActionIterator.Next` | actpool/actioniterator/actioniterator.go:87-95 | a head with the highest price; the end only when every account's list was yielded whole and in order |
| `ActionIteration.ActionIterator.PopAccount` | actpool/actioniterator/actioniterator.go:98-102 | the account whose next action has the highest price then is dropped with all that is left of it, whichever came last |
| `NonceValidation.CollectNonces` | blockchain/blockvalidator.go:248-256 | for every account its nonces in the order of the block, without nonce 0 |
| `NonceValidation.CheckNonces` | blockchain/blockvalidator.go:125-137 | accepts exactly the permutations of the nonces that follow the confirmed one |
| `NonceValidation.ValidateNonces` | blockchain/blockvalidator.go:114-139 | passes if and only if this is the genesis block or every account's nonces follow its confirmed one without gap or repetition |
| `NonceValidation.PrefixContiguous` | actpool/actqueue.go:240-246 | every prefix of a queue's pending run has contiguous nonces |
| `NonceValidation.SkippedContiguousIff` | blockchain/blockvalidator.go:118-138 | of the first actions of a pending run, some skipped, the rest has contiguous nonces if and only if none of them follows a skipped one |
| `NonceValidation.OfferedBlockPasses` | actpool/actioniterator/actioniterator.go:87-102 | what the iterator yields from the pending actions, but for skipped ones, with any nonce-0 actions mixed in, passes the check if and only if no account has an action after a skipped one of its own |
| `Minting.PickAndRunActions` | blockchain/blockchain.go:1053-1084 | round by round the next action with the highest price comes, and one that hits the limit is not run and drops exactly one account with the highest price then, unless nothing is left; it ends when nothing is left, or at the first action run that fills the block; at most one account is lost for each skipped action; no account has an action after a skipped one if each action that hits the limit is its account's last or is followed by one priced above all offers of the others |
| `Minting.PickOne` | blockchain/blockchain.go:1056-1071 | one such round of the iterator |
| `Minting.RoundKeepsEnded` | blockchain/blockchain.go:1062-1070 | under that condition on the offers every round ends the account of a skipped action |
| `Minting.PopsItself` | blockchain/blockchain.go:1062-1070 | under that condition on the offers the account popped is the skipped action's own, unless nothing is left of it |
| `Minting.MintBlock` | consensus/scheme/rolldpos/rolldposctx.go:473-478 | from the pool's pending actions through the iterator to the validator: the rounds, at most one account lost for each skipped action, and the block passes if and only if no account has an action in it after a skipped one, and so always if none hits the limit or the offers meet that condition |
| `Minting.SkipLeavesGap` | blockchain/blockchain.go:1062-1070 | for any two accounts, a run in which the wrong one is popped and the validator refuses the block |
| `BlockIndex.PutActsShows` | blockchain/indexbuilder.go:135-202 | indexing a block appends to every address's list exactly what a scan of the block finds for it |
| `BlockIndex.ScanHas` | blockchain/indexbuilder.go:135-202 | a scan finds exactly the actions of the chain with that sender, or that recipient |
| `BlockIndex.Bump` | blockchain/indexbuilder.go:143-165 | stored count plus what the block had so far is the place of the next entry, although reads see only the store |
| `BlockIndex.PutActions` | blockchain/indexbuilder.go:135-202 | the batch comes to the entries and counts of all actions, and fails exactly on a malformed destination |
| `BlockIndex.CountSides` | blockchain/blockdao.go:535-549 | how often each address sends and receives in the block |
| `BlockIndex.LowerCounts` | blockchain/blockdao.go:550-572 | exactly the counts of one side go back by what the block had, in whichever order the addresses come |
| `BlockIndex.DropEntry` | blockchain/blockdao.go:581-592 | the n-th deletion for an address hits the place that lies the n-th triangular number above its lowered count |
| `BlockIndex.HitIff` | blockchain/blockdao.go:581-608 | the places deleted lie 0, 1, 3, 6, ... above the count, as many as the address occurs |
| `BlockIndex.DropEntries` | blockchain/blockdao.go:574-615 | exactly those places are emptied, on both sides |
| `BlockIndex.DeleteActions` | blockchain/blockdao.go:534-618 | counts as before the block, and no entry below them touched |
| `BlockIndex.CleanIff` | blockchain/blockdao.go:581-608 | no entry of the block is left for an address if and only if it occurs at most twice on that side |
| `BlockIndex.PushAgrees` | blockchain/blockdao.go:350-413 | an index that agrees with a scan of the chain agrees with a scan of the chain and one more block after the push |
| `BlockIndex.PopAgrees` | blockchain/blockdao.go:446-523 | the same for taking the last block off, on all that queries can see |
| `BlockIndex.PutAgreesIff` | blockchain/blockdao.go:350-413 | for a block of any height whose header fixes its actions, the index agrees with a scan of some chain afterwards if and only if the block goes on top, or is in the chain and has no actions |
| `BlockDao.Remember` | blockchain/blockdao.go:215-217 | a bounded cache keeps the newest entry, invents none and may drop any other |
| `BlockDao.ReadPart` | blockchain/blockdao.go:187-220 | the answer is the store's whether or not it came from the cache |
| `BlockDao.BlockDAO.constructor` | blockchain/blockdao.go:102-125 | an empty chain |
| `BlockDao.BlockDAO.GetBlockHash` | blockchain/blockdao.go:131-146 | the zero hash for height 0, else the hash of the chain's block at that height or an error |
| `BlockDao.BlockDAO.GetBlockHeight` | blockchain/blockdao.go:149-159 | the height of the chain's block with that hash, or an error exactly if there is none |
| `BlockDao.BlockDAO.GetBlock` | blockchain/blockdao.go:162-180 | the chain's block with that hash, put together from three cached parts, or an error exactly if there is none |
| `BlockDao.BlockDAO.GetBlockchainHeight` | blockchain/blockdao.go:301-310 | the length of the chain |
| `BlockDao.BlockDAO.GetTotalActions` | blockchain/blockdao.go:313-322 | the number of actions in the chain |
| `BlockDao.BlockDAO.GetActionCount` | blockchain/indexbuilder.go:236-246 | how many actions a scan of the chain finds for the address |
| `BlockDao.BlockDAO.GetActionsByAddress` | blockchain/indexbuilder.go:294-311 | exactly what a scan of the chain finds for the address, in order: the actions it sent, or those sent to it |
| `BlockDao.BlockDAO.PutBlock` | blockchain/blockdao.go:350-413 | a malformed destination leaves everything as it was; on top of the chain, the chain grows and index and caches agree with it; at any height, exactly what is written and whether any chain agrees with it |
| `BlockDao.BlockDAO.DeleteTipBlock` | blockchain/blockdao.go:446-523 | the chain without its last block, index and caches agreeing with it; exactly the places 0, 1, 3, 6, ... above the count are emptied, so leftovers are as in BlockIndex.CleanIff; an empty chain is an error |
| `BlockDao.EntryStays` | blockchain/blockdao.go:581-592 | a block with three actions of any one sender, put on an empty store and deleted: the chain is empty and an entry of the sender is still there |
| `SyncBuffer.StopDecides` | blocksync/buffer.go:73-98 | the flush gets past a height exactly if all heights from the tip on up to it are buffered and none blocks |
| `SyncBuffer.BlockBuffer.constructor` | blocksync/buffer.go:33-43 | an empty buffer |
| `SyncBuffer.BlockBuffer.Flush` | blocksync/buffer.go:50-99 | which check turns a block away; blocks go to the chain in consecutive heights from the one after the tip; moved exactly if all through the given one got past; what is not handed on stays, but for heights the chain has if that is more than twice the buffer's size; no height beyond its reach, for every non-decreasing tip |
| `SyncBuffer.BlockBuffer.CommitFrom` | blocksync/buffer.go:73-86 | stops at the first height that is missing or blocks; what was handed on is out of the buffer, the rest is in |
| `SyncBuffer.BlockBuffer.Trim` | blocksync/buffer.go:89-96 | past twice the size, and only then, exactly the heights up to the tip are forgotten, and that is enough |
| `SyncBuffer.BlockBuffer.GetBlocksIntervalsToSync` | blocksync/buffer.go:102-153 | ascending disjoint intervals, none empty or too long, short only before a buffered block or the end, that cover exactly the missing heights above the tip within one interval, or within both the target and the buffer's reach; none if the tip has reached the target |
| `SyncBuffer.OnePlan` | blocksync/buffer.go:124-152 | these properties determine the intervals |
| `MerkleTree.RootTells` | crypto/merkle.go:49-81 | lists of one length with the same root are the same |
| `MerkleTree.PaddingDoesNotShow` | crypto/merkle.go:39-43 | a list of odd length above one has the root of the list with its last hash repeated |
| `MerkleTree.RootOfPairs` | crypto/merkle.go:58-62 | a list of even length has the root of the list of the hashes of its pairs |
| `MerkleTree.RootIsTheOnly` | crypto/merkle.go:49-81 | these two laws, and that a single hash is its own root, hold of no other function |
| `MerkleTree.PairsDoNotShow` | crypto/merkle.go:58-62 | a list of one hash of a pair has the root of the list of the two, so the condition on pairs is needed |
| `MerkleTree.RootHasMembers` | crypto/merkle.go:49-81 | the root of a list without hashes of pairs is made from exactly the hashes of the list |
| `MerkleTree.RootIffList` | crypto/merkle.go:49-81 | lists without repetition and without hashes of pairs, of whatever lengths, have the same root if and only if they are the same |
| `MerkleTree.Merkle.NewMerkleTree` | crypto/merkle.go:21-46 | no tree for no leaves, else one that stands for the given leaves |
| `MerkleTree.Merkle.HashTree` | crypto/merkle.go:49-81 | the root by the recursive definition, kept for the next call; a failure exactly for a single all-zero leaf |
| `MerkleTree.FoldLevel` | crypto/merkle.go:65-77 | overwriting a level in its own array gives the hashes of its pairs, the last hash of an odd level paired with itself |
| `ConsensusFsmSpec.StaysInTable` | consensus/consensusfsm/fsm.go:125-211 | no handler goes to a state that the table does not list for it |
| `ConsensusFsmSpec.StepCalls` | consensus/consensusfsm/fsm.go:381-520 | which calls a step records, told from the context's answers: an endorsement only where the context gave one, a commit only where it was asked |
| `ConsensusFsmSpec.StepLeads` | consensus/consensusfsm/fsm.go:360-520 | where a step leads, told from the answers: to the commit phase only with an endorsement of the context's own |
| `ConsensusFsmSpec.StepQueues` | consensus/consensusfsm/fsm.go:297-520 | which events a step queues, each once and with its data, told from the answers kind by kind, and when the event handled is put back |
| `ConsensusFsmSpec.CommitIsEndorsed` | consensus/consensusfsm/fsm.go:509-520 | in a legal trace every call of Commit follows a pre-commit endorsement with no successful prepare and no successful commit between |
| `ConsensusFsmSpec.AgreesOnCommits` | consensus/consensusfsm/fsm.go:317-358 | handling any event with any answers keeps the trace of calls legal: one endorsement a round, commits only after it |
| `ConsensusFsmSpec.BringsNeeded` | consensus/consensusfsm/fsm.go:381-412 | a handler makes every driving event that its new state needs and the old one did not have |
| `ConsensusFsmSpec.StaysDriven` | consensus/consensusfsm/fsm.go:317-358 | under a fair context, handling any event keeps what drives the state on pending |
| `ConsensusFsmSpec.RunKeepsPhase` | consensus/consensusfsm/fsm.go:221-241 | in every machine of every run, whatever the context answers and whenever events arrive, the trace of calls is legal |
| `ConsensusFsmSpec.CommitHasEndorsement` | consensus/consensusfsm/fsm.go:473-520 | in every run, whenever the machine waits to commit, an earlier move was answered with a pre-commit endorsement and it has been waiting since |
| `ConsensusFsmSpec.RunKeepsDriven` | consensus/consensusfsm/fsm.go:221-241 | in every machine of every run under a fair context, started with an event to prepare, what drives the state on is pending |
| `ConsensusFsmSpec.TimeoutMovesOn` | consensus/consensusfsm/fsm.go:439-507 | a timeout moves its state on to the next, whatever the context answers |
| `ConsensusFsmSpec.RoundEnds` | consensus/consensusfsm/fsm.go:395-401 | from any state of a round short of agreement, its pending timeouts alone lead back to preparing, in as many steps as phases are left |
| `ConsensusFsm.ConsensusFSM.constructor` | consensus/consensusfsm/fsm.go:109-124 | starts preparing, with an event to prepare queued |
| `ConsensusFsm.ConsensusFSM.Produce` | consensus/consensusfsm/fsm.go:297-315 | one more event pending, or none if the context makes none |
| `ConsensusFsm.ConsensusFSM.BackToPrepare` | consensus/consensusfsm/fsm.go:266-270 | an event to prepare is queued on the way back |
| `ConsensusFsm.ConsensusFSM.OnCalibrate` | consensus/consensusfsm/fsm.go:360-379 | back to preparing for a height not below the context's, else an error that changes nothing |
| `ConsensusFsm.ConsensusFSM.OnPrepare` | consensus/consensusfsm/fsm.go:381-412 | all three timeouts of the round are queued if it starts, else another event to prepare |
| `ConsensusFsm.ConsensusFSM.OnBlock` | consensus/consensusfsm/fsm.go:414-446 | on with an endorsement of the block, and in any case when its time is up |
| `ConsensusFsm.ConsensusFSM.OnReceiveProposalEndorsement` | consensus/consensusfsm/fsm.go:448-465 | on only with a lock endorsement |
| `ConsensusFsm.ConsensusFSM.OnReceiveLockEndorsement` | consensus/consensusfsm/fsm.go:473-489 | on only with a pre-commit endorsement, whose rebroadcast is then queued |
| `ConsensusFsm.ConsensusFSM.OnReceivePreCommitEndorsement` | consensus/consensusfsm/fsm.go:509-520 | back to preparing exactly if the commit succeeds |
| `ConsensusFsm.ConsensusFSM.OnTimeout` | consensus/consensusfsm/fsm.go:467-507 | on to locks, back to preparing with an event to prepare queued, or the rebroadcast queued again |
| `ConsensusFsm.ConsensusFSM.Dispatch` | consensus/consensusfsm/fsm.go:125-211 | a handler runs exactly for the pairs in the table and returns one of the states listed |
| `ConsensusFsm.ConsensusFSM.Handle` | consensus/consensusfsm/fsm.go:317-358 | the object does what the step function of the runs says: dropped, put back, or handled, with a handler's error leaving the state alone |

## Left out

- Protobuf, compression, signatures, keys and address parsing: serialisation and hashing are taken to be injective.
- Trie nodes as objects: the model passes them as values, so cached serialisations and two references to one node object are not captured; the store they are written to is.
- Root keys of the trie: the root hash is set, not read from a key. `UpdateBlockLevelInfo`, which writes the root hash and the height into the account namespace, is left out too.
- Contract storage tries: all contracts have their nodes in one bucket, while the trie of the model has its bucket to itself.
- `WriteIfNotExist`, `CloneBatch` and `Digest` of the batch: easy members, and the digest concatenates fields without delimiters.
- Bolt and Badger back ends: the base store is the in-memory one; errors of a store are not modelled.
- Locks, goroutines and channel capacity: every locked method is one step, and the event queue is unbounded.
- `AllActs`, `GetPendingNonce`, `GetUnconfirmedActs` and the other getters of the pool: easy members.
- Running actions: whether one hits the gas limit, and whether the block is full after it, are answers for each action, and other errors of a run, which stop the minting, are left out.
- The other checks of the block validator (signatures, gas, state and receipt roots): only the nonce part is modelled.
- Receipts and the mapping from actions to blocks: the tip block is loaded without receipts, so their index is not rolled back.
- The block store with indexing off: a prefix of what is modelled.
- `SlidingWindow`, workers and the p2p side of block sync.
- Backdoor events of the consensus machine: they are for tests. Broadcasts leave no trace in the model, and nothing is claimed about agreement between nodes.
- 64-bit wrap-around of gas totals, heights, counts and nonces: they are natural numbers, except for the nonce window, which wraps as in the code.
- WorkingSets.WorkingSet.Revert: for a snapshot whose writes were not given back it states when the call fails, but not what the accounts are then.
- TrieStore.BranchRootTrie.SetRootHash: a node that cannot be read back is an error like one that is missing; the map is stated for roots whose nodes are all stored; a root with nodes missing below it is opened without a claim about its map.
- ActPools.ActPool.Add: the check for experimental actions and the validators come as one verdict `passes`; the chain answers every question for nonce, balance, cost and gas.
- ActPools.ActPool.PendingActionMap: what expiry leaves is a sweep of the queue's heap in whichever order the heap has its entries.
- BlockDao.BlockDAO.PutBlock: for a block whose header is in the chain with other actions, it states what is written but not whether a chain agrees with it; a header holds the root of its actions.
- SyncBuffer.BlockBuffer.Flush: the tip is read once and never lower than before; committing a block is an outcome for each height.
- ConsensusFsmSpec.RunKeepsDriven: the context drops no driving event of the current round, makes those it is asked for, and changes its round only when preparing.
