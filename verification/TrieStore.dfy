/**
The trie over its content-addressed store (db/trie/branchroottrie.go and the
node files): every operation deletes and re-puts nodes one by one, through the
cached batch in front of the store (db/kvstore4trie.go), and after it what is
seen there is exactly the nodes reachable from the root.

Offsets are the source's 8-bit integers. The errors and panics the source has
for a node that is missing from the store, a branch left without children or a
root that is no branch are shown not to be reachable.
*/
module TrieStore {
  import opened Options
  import opened ByteStrings
  import opened TrieNodes
  import opened TrieOps
  import opened TrieMap
  import opened TrieReach
  import TrieMarks
  import KvBatch
  import KvOverlay

  type Bytes = KvBatch.Bytes

  newtype uint8 = x: int | 0 <= x < 256

  const EMPTY_HASH := HashOf(EMPTY_ROOT)

  datatype Status = Ok | NotExist | InvalidKey | InvalidTrie

  lemma {:induction false} CommonPrefixIs(a: Key, b: Key, m: nat)
    requires m <= |a| <= |b| && a[..m] == b[..m] && (m < |a| ==> a[m] != b[m])
    ensures m == CommonPrefix(a, b)
  {
    if m > 0 {
      assert a[0] == a[..m][0] && b[0] == b[..m][0];
      assert a[1..][..m - 1] == a[..m][1..] && b[1..][..m - 1] == b[..m][1..];
      CommonPrefixIs(a[1..], b[1..], m - 1);
    }
  }

  /** The number of leading bytes two keys share; the first is not the longer one. */
  method CommonPrefixLength(a: Key, b: Key) returns (matched: uint8)
    requires |a| <= |b| && |a| < 256
    ensures matched as nat == CommonPrefix(a, b)
  {
    matched := 0;
    var len := |a| as uint8;
    while matched < len && a[matched] == b[matched]
      invariant matched <= len && a[..matched] == b[..matched]
    {
      matched := matched + 1;
    }
    CommonPrefixIs(a, b, matched as nat);
  }

  /** The hashes an outcome of a deletion at `n` leaves in use. */
  ghost function Left(n: Node, d: Deletion): set<Hash> {
    match d
    case NotFound => Reach(n)
    case Emptied => {}
    case Kept(m) => Reach(m)
  }

  /** The hash of a node as bytes, and a node as bytes and back. */
  datatype Codec = Codec(hashBytes: Hash -> Bytes, serialize: Node -> Bytes, parse: Bytes -> Option<Node>) {
    /** No two hashes are the same bytes, and a node is read back as it was written. */
    ghost predicate Sound() {
      && (forall g, h :: hashBytes(g) == hashBytes(h) ==> g == h)
      && (forall n :: parse(serialize(n)) == Some(n))
    }

    /** What is under a hash when exactly the given nodes are stored; the empty branch never is. */
    ghost function Entry(h: Hash, s: set<Hash>): Option<Bytes> {
      if h in s && h != EMPTY_HASH then Some(serialize(h.node)) else None
    }

    /** Of all nodes, a bucket of a store has exactly those with the given hashes. */
    ghost predicate HasIn(st: KvOverlay.Store, bucket: Bytes, s: set<Hash>) {
      forall h :: KvOverlay.Lookup(st, bucket, hashBytes(h)) == Entry(h, s)
    }
  }

  class BranchRootTrie {
    const keyLength: nat
    const kvStore: KvOverlay.KVStoreForTrie
    const codec: Codec
    var root: Node
    var rootHash: Hash

    /** The overlay looks like a map with exactly the given nodes. */
    ghost predicate Holds(s: set<Hash>)
      reads kvStore.dao, kvStore.cb, kvStore.cb.cache, kvStore.cb.cacheShots
    {
      codec.Sound() && kvStore.Plain() && forall h :: kvStore.View(codec.hashBytes(h)) == codec.Entry(h, s)
    }

    lemma HoldsIff(s: set<Hash>)
      ensures Holds(s) <==>
              && codec.Sound() && kvStore.Plain()
              && codec.HasIn(KvOverlay.ReplayStore(kvStore.dao.Model(), kvStore.cb.queue), kvStore.bucket, s)
    {
      hide KvOverlay.KVStoreForTrie.Plain, KvOverlay.ReplayStore, KvOverlay.Lookup;
      assert forall h :: kvStore.View(codec.hashBytes(h)) == codec.Entry(h, s) <==>
        KvOverlay.Lookup(KvOverlay.ReplayStore(kvStore.dao.Model(), kvStore.cb.queue), kvStore.bucket,
                         codec.hashBytes(h)) == codec.Entry(h, s);
    }

    ghost predicate Valid()
      reads this, kvStore.dao, kvStore.cb, kvStore.cb.cache, kvStore.cb.cacheShots
    {
      && 0 < keyLength <= 128
      && IsRoot(root, keyLength)
      && rootHash == HashOf(root)
      && Holds(Reach(root))
    }

    constructor (keyLength: nat, kvStore: KvOverlay.KVStoreForTrie, codec: Codec)
      requires 0 < keyLength <= 128
      ensures this.keyLength == keyLength && this.kvStore == kvStore && this.codec == codec
      ensures root == EMPTY_ROOT && rootHash == EMPTY_HASH && Contents(root) == map[]
      ensures Holds({}) ==> Valid()
    {
      this.keyLength, this.kvStore, this.codec := keyLength, kvStore, codec;
      root := EMPTY_ROOT;
      rootHash := EMPTY_HASH;
    }

    method PutNodeIntoDB(n: Node, ghost s: set<Hash>)
      requires Holds(s)
      modifies kvStore.cb, kvStore.cb.cache
      ensures kvStore.cb.Extended()
      ensures Holds(s + {HashOf(n)})
    {
      if HashOf(n) != EMPTY_HASH {
        PutStored(n, s);
      } else {
        hide KvOverlay.KVStoreForTrie.View, KvOverlay.KVStoreForTrie.Plain;
        assert forall h :: codec.Entry(h, s + {HashOf(n)}) == codec.Entry(h, s);
      }
    }

    method PutStored(n: Node, ghost s: set<Hash>)
      requires Holds(s) && HashOf(n) != EMPTY_HASH
      modifies kvStore.cb, kvStore.cb.cache
      ensures kvStore.cb.Extended()
      ensures Holds(s + {HashOf(n)})
    {
      assert kvStore.Valid();
      hide KvOverlay.KVStoreForTrie.View, KvOverlay.KVStoreForTrie.Plain, KvOverlay.KVStoreForTrie.Valid, KvBatch.Step;
      kvStore.Put(codec.hashBytes(HashOf(n)), codec.serialize(n));
      forall h ensures kvStore.View(codec.hashBytes(h)) == codec.Entry(h, s + {HashOf(n)}) {
        assert old(kvStore.View(codec.hashBytes(h))) == codec.Entry(h, s);
      }
    }

    method DeleteNodeFromDB(n: Node, ghost s: set<Hash>)
      requires Holds(s)
      modifies kvStore.cb, kvStore.cb.cache
      ensures kvStore.cb.Extended()
      ensures Holds(s - {HashOf(n)})
    {
      assert kvStore.Valid();
      hide KvOverlay.KVStoreForTrie.View, KvOverlay.KVStoreForTrie.Plain, KvOverlay.KVStoreForTrie.Valid, KvBatch.Step;
      kvStore.Delete(codec.hashBytes(HashOf(n)));
      forall h ensures kvStore.View(codec.hashBytes(h)) == codec.Entry(h, s - {HashOf(n)}) {
        assert old(kvStore.View(codec.hashBytes(h))) == codec.Entry(h, s);
      }
    }

    method LoadNodeFromDB(h: Hash, ghost s: set<Hash>) returns (n: Option<Node>)
      requires Holds(s)
      ensures n == if h in s || h == EMPTY_HASH then Some(h.node) else None
    {
      n := LoadStored(h);
      LoadedIs(h, s);
    }

    /** What the overlay has under a hash, read back. */
    ghost function Loaded(h: Hash): Option<Node>
      reads kvStore.dao, kvStore.cb
    {
      if h == EMPTY_HASH then Some(EMPTY_ROOT)
      else
        var seen := KvBatch.Replay(kvStore.cb.state.seen);
        match KvOverlay.Overlaid(seen, kvStore.dao.Model(), kvStore.bucket, codec.hashBytes(h))
        case None => None
        case Some(bytes) => codec.parse(bytes)
    }

    lemma LoadedIs(h: Hash, s: set<Hash>)
      requires Holds(s)
      ensures Loaded(h) == if h in s || h == EMPTY_HASH then Some(h.node) else None
    {
      KvOverlay.OverlaidIs(kvStore.dao.Model(), kvStore.cb.queue, kvStore.bucket, codec.hashBytes(h));
    }

    method LoadStored(h: Hash) returns (n: Option<Node>)
      requires kvStore.Valid()
      ensures n == Loaded(h)
    {
      if h == EMPTY_HASH {
        return Some(EMPTY_ROOT);
      }
      var bytes := kvStore.Get(codec.hashBytes(h));
      n := if bytes.None? then None else codec.parse(bytes.value);
    }

    // ---- search

    method SearchNode(n: Node, key: Key, offset: uint8, ghost s: set<Hash>) returns (r: Option<Node>)
      requires |key| <= 128 && OpenAt(n, key, offset as nat)
      requires Holds(s) && BelowReach(n) <= s
      ensures r == Search(n, key, offset as nat)
      decreases n, 1
    {
      hide Holds;
      match n
      case Leaf(k, _) => r := if k[offset..] != key[offset..] then None else Some(n);
      case Extension(_, _) => r := SearchExtension(n, key, offset, s);
      case Branch(_) => r := SearchBranch(n, key, offset, s);
    }

    method SearchExtension(n: Node, key: Key, offset: uint8, ghost s: set<Hash>) returns (r: Option<Node>)
      requires n.Extension? && |key| <= 128 && OpenAt(n, key, offset as nat)
      requires Holds(s) && BelowReach(n) <= s
      ensures r == Search(n, key, offset as nat)
      decreases n, 0
    {
      hide Holds, WellFormed, Search;
      var Extension(path, h) := n;
      ExtensionStep(path, h, key, offset as nat);
      var matched := CommonPrefixLength(path, key[offset..]);
      SearchExtensionIs(path, h, key, offset as nat, matched as nat);
      if matched as int != |path| {
        return None;
      }
      var child := LoadNodeFromDB(h, s);
      r := SearchNode(child.value, key, offset + matched, s);
    }

    method SearchBranch(n: Node, key: Key, offset: uint8, ghost s: set<Hash>) returns (r: Option<Node>)
      requires n.Branch? && |key| <= 128 && OpenAt(n, key, offset as nat)
      requires Holds(s) && BelowReach(n) <= s
      ensures r == Search(n, key, offset as nat)
      decreases n, 0
    {
      hide Holds, WellFormed;
      BranchStep(n.hashes, key, offset as nat);
      if key[offset] !in n.hashes {
        return None;
      }
      ReachOfBranch(n.hashes, key[offset]);
      var child := LoadNodeFromDB(n.hashes[key[offset]], s);
      r := SearchNode(child.value, key, offset + 1, s);
    }

    // ---- upsert

    method UpsertNode(n: Node, key: Key, offset: uint8, value: Value, ghost frame: set<Hash>) returns (r: Node)
      requires |key| <= 128 && OpenAt(n, key, offset as nat)
      requires frame !! Reach(n) && Holds(frame + Reach(n))
      modifies kvStore.cb, kvStore.cb.cache
      ensures kvStore.cb.Extended()
      ensures r == Upserted(n, key, offset as nat, value)
      ensures Holds(frame + Reach(r))
      decreases n, 1
    {
      hide Holds;
      match n
      case Leaf(_, _) => r := UpsertLeafNode(n, key, offset, value, frame);
      case Extension(_, _) => r := UpsertExtension(n, key, offset, value, frame);
      case Branch(_) => r := UpsertBranch(n, key, offset, value, frame);
    }

    method UpsertLeafNode(n: Node, key: Key, offset: uint8, value: Value, ghost frame: set<Hash>) returns (r: Node)
      requires n.Leaf?
      requires |key| <= 128 && OpenAt(n, key, offset as nat)
      requires frame !! Reach(n) && Holds(frame + Reach(n))
      modifies kvStore.cb, kvStore.cb.cache
      ensures kvStore.cb.Extended()
      ensures r == Upserted(n, key, offset as nat, value)
      ensures Holds(frame + Reach(r))
    {
      hide Holds;
      var matched := CommonPrefixLength(n.key[offset..], key[offset..]);
      var at := offset + matched;
      if at as int == |key| {
        DeleteNodeFromDB(n, frame + Reach(n));
        r := n.(value := value);
        PutNodeIntoDB(r, frame + Reach(n) - {HashOf(n)});
        assert frame + Reach(n) - {HashOf(n)} + {HashOf(r)} == frame + Reach(r);
        return;
      }
      var l := Leaf(key, value);
      PutNodeIntoDB(l, frame + Reach(n));
      assert n.key[offset..][matched] == n.key[at];
      r := PutFork(n.key[offset..at], n.key[at], n, key[at], l, frame + Reach(n) + {HashOf(l)});
      ReachOfFork(n.key[offset..at], n.key[at], n, key[at], l);
      assert frame + Reach(n) + {HashOf(l)} + Reach(r) == frame + Reach(r);
    }

    /** Puts the branch over two nodes, and the extension above it when they share some bytes. */
    method PutFork(shared: Key, a: Byte, m: Node, b: Byte, n: Node, ghost s: set<Hash>) returns (r: Node)
      requires a != b && Holds(s) && Reach(m) + Reach(n) <= s
      modifies kvStore.cb, kvStore.cb.cache
      ensures kvStore.cb.Extended()
      ensures r == Fork(shared, a, m, b, n) && Holds(s + Reach(r))
    {
      hide Holds;
      ReachOfFork(shared, a, m, b, n);
      var branch := Branch(map[a := HashOf(m), b := HashOf(n)]);
      PutNodeIntoDB(branch, s);
      if shared == [] {
        assert s + {HashOf(branch)} == s + Reach(branch);
        return branch;
      }
      r := Extension(shared, HashOf(branch));
      PutNodeIntoDB(r, s + {HashOf(branch)});
      assert s + {HashOf(branch)} + {HashOf(r)} == s + Reach(r);
    }

    method UpsertExtension(n: Node, key: Key, offset: uint8, value: Value, ghost frame: set<Hash>) returns (r: Node)
      requires n.Extension?
      requires |key| <= 128 && OpenAt(n, key, offset as nat)
      requires frame !! Reach(n) && Holds(frame + Reach(n))
      modifies kvStore.cb, kvStore.cb.cache
      ensures kvStore.cb.Extended()
      ensures r == Upserted(n, key, offset as nat, value)
      ensures Holds(frame + Reach(r))
      decreases n, 0
    {
      hide Holds, WellFormed, Upserted;
      var Extension(path, h) := n;
      ExtensionStep(path, h, key, offset as nat);
      NotBelowItself(n);
      var matched := CommonPrefixLength(path, key[offset..]);
      if matched as int == |path| {
        assert frame + Reach(n) == frame + {HashOf(n)} + Reach(h.node);
        UpsertAtEnd(path, h, key, offset as nat, value);
        var child := LoadNodeFromDB(h, frame + Reach(n));
        var newChild := UpsertNode(child.value, key, offset + matched, value, frame + {HashOf(n)});
        r := UpdateExtensionChild(n, newChild, frame);
      } else {
        r := SplitExtension(n, key, offset, value, matched, frame);
      }
    }

    /** Parts an extension from a key that leaves its path after `matched` bytes. */
    method SplitExtension(n: Node, key: Key, offset: uint8, value: Value, matched: uint8, ghost frame: set<Hash>)
      returns (r: Node)
      requires n.Extension?
      requires |key| <= 128 && OpenAt(n, key, offset as nat)
      requires matched as nat == CommonPrefix(n.path, key[offset..]) != |n.path|
      requires frame !! Reach(n) && Holds(frame + Reach(n))
      modifies kvStore.cb, kvStore.cb.cache
      ensures kvStore.cb.Extended()
      ensures r == Upserted(n, key, offset as nat, value)
      ensures Holds(frame + Reach(r))
    {
      hide Holds, WellFormed, Upserted, CommonPrefix;
      var Extension(path, h) := n;
      ExtensionStep(path, h, key, offset as nat);
      PathParts(path, key, offset as nat);
      NotBelowItself(n);
      UpsertExtensionIs(path, h, key, offset as nat, value, matched as nat);
      var e, l := Extension(path[matched + 1..], h), Leaf(key, value);
      SwapExtension(n, e, l, frame);
      var at := offset + matched;
      ghost var s := frame + Reach(e) + {HashOf(l)};
      r := PutFork(key[offset..at], path[matched], e, key[at], l, s);
      ReachOfFork(key[offset..at], path[matched], e, key[at], l);
      assert s + Reach(r) == frame + Reach(r);
    }

    /** Puts what is left of an extension, and a new leaf, in place of the extension. */
    method SwapExtension(n: Node, e: Node, l: Node, ghost frame: set<Hash>)
      requires n.Extension? && e.Extension? && n.child == e.child && l.Leaf?
      requires frame !! Reach(n) && Holds(frame + Reach(n))
      modifies kvStore.cb, kvStore.cb.cache
      ensures kvStore.cb.Extended()
      ensures Holds(frame + Reach(e) + {HashOf(l)})
    {
      hide Holds;
      NotBelowItself(n);
      ghost var s := frame + Reach(n) - {HashOf(n)};
      DeleteNodeFromDB(n, frame + Reach(n));
      PutNodeIntoDB(e, s);
      PutNodeIntoDB(l, s + {HashOf(e)});
      assert s + {HashOf(e)} + {HashOf(l)} == frame + Reach(e) + {HashOf(l)};
    }

    /** Re-puts an extension over a changed child that is in the store already. */
    method UpdateExtensionChild(n: Node, c: Node, ghost frame: set<Hash>) returns (r: Node)
      requires n.Extension? && HashOf(n) !in frame + Reach(c)
      requires Holds(frame + {HashOf(n)} + Reach(c))
      modifies kvStore.cb, kvStore.cb.cache
      ensures kvStore.cb.Extended()
      ensures r == n.(child := HashOf(c)) && Holds(frame + Reach(r))
    {
      hide Holds;
      ghost var s := frame + {HashOf(n)} + Reach(c);
      DeleteNodeFromDB(n, s);
      r := n.(child := HashOf(c));
      PutNodeIntoDB(r, s - {HashOf(n)});
      assert s - {HashOf(n)} + {HashOf(r)} == frame + Reach(r);
    }

    method UpsertBranch(n: Node, key: Key, offset: uint8, value: Value, ghost frame: set<Hash>) returns (r: Node)
      requires n.Branch?
      requires |key| <= 128 && OpenAt(n, key, offset as nat)
      requires frame !! Reach(n) && Holds(frame + Reach(n))
      modifies kvStore.cb, kvStore.cb.cache
      ensures kvStore.cb.Extended()
      ensures r == Upserted(n, key, offset as nat, value)
      ensures Holds(frame + Reach(r))
      decreases n, 0
    {
      hide Holds, WellFormed, Upserted;
      var k := key[offset];
      UpsertUnder(n.hashes, key, offset as nat, value);
      ghost var others := Beside(n.hashes, k);
      ReachOfBranch(n.hashes, k);
      NotBelowItself(n);
      var newChild;
      if k in n.hashes {
        BesideIsDisjoint(n.hashes, key[..offset], |key|, k);
        assert frame + Reach(n) == frame + {HashOf(n)} + others + Reach(n.hashes[k].node);
        var child := LoadNodeFromDB(n.hashes[k], frame + Reach(n));
        newChild := UpsertNode(child.value, key, offset + 1, value, frame + {HashOf(n)} + others);
      } else {
        newChild := Leaf(key, value);
        PutNodeIntoDB(newChild, frame + Reach(n));
        assert frame + Reach(n) + {HashOf(newChild)} == frame + {HashOf(n)} + others + Reach(newChild);
      }
      r := UpdateBranchChild(n, k, newChild, frame);
    }

    /** Re-puts a branch over a changed child that is in the store already. */
    method UpdateBranchChild(n: Node, k: Byte, c: Node, ghost frame: set<Hash>) returns (r: Node)
      requires n.Branch? && HashOf(n) !in frame + Beside(n.hashes, k) + Reach(c)
      requires Holds(frame + {HashOf(n)} + Beside(n.hashes, k) + Reach(c))
      modifies kvStore.cb, kvStore.cb.cache
      ensures kvStore.cb.Extended()
      ensures r == Branch(n.hashes[k := HashOf(c)]) && Holds(frame + Reach(r))
    {
      hide Holds;
      ghost var s := frame + {HashOf(n)} + Beside(n.hashes, k) + Reach(c);
      DeleteNodeFromDB(n, s);
      r := Branch(n.hashes[k := HashOf(c)]);
      PutNodeIntoDB(r, s - {HashOf(n)});
      ReachReplaced(n.hashes, k, c);
      assert s - {HashOf(n)} + {HashOf(r)} == frame + Reach(r);
    }

    /** Re-puts a branch without one of its children. */
    method DropBranchChild(n: Node, k: Byte, ghost frame: set<Hash>) returns (r: Node)
      requires n.Branch? && HashOf(n) !in frame + Beside(n.hashes, k)
      requires Holds(frame + {HashOf(n)} + Beside(n.hashes, k))
      modifies kvStore.cb, kvStore.cb.cache
      ensures kvStore.cb.Extended()
      ensures r == Branch(n.hashes - {k}) && Holds(frame + Reach(r))
    {
      hide Holds;
      ghost var s := frame + {HashOf(n)} + Beside(n.hashes, k);
      DeleteNodeFromDB(n, s);
      r := Branch(n.hashes - {k});
      PutNodeIntoDB(r, s - {HashOf(n)});
      assert s - {HashOf(n)} + {HashOf(r)} == frame + Reach(r);
    }

    // ---- delete

    method DeleteNode(n: Node, key: Key, offset: uint8, ghost frame: set<Hash>) returns (r: Deletion)
      requires |key| <= 128 && At(n, key, offset as nat)
      requires frame !! Reach(n) && Holds(frame + Reach(n)) && Apart(frame, n, key[..offset])
      modifies kvStore.cb, kvStore.cb.cache
      ensures kvStore.cb.Extended()
      ensures r == Deleted(n, key, offset as nat)
      ensures Holds(frame + Left(n, r))
      ensures r.NotFound? ==> kvStore.cb.state == old(kvStore.cb.state)
      decreases n, 1
    {
      hide Holds;
      match n
      case Leaf(k, _) =>
        if k[offset..] != key[offset..] {
          return NotFound;
        }
        DeleteNodeFromDB(n, frame + Reach(n));
        assert frame + Reach(n) - {HashOf(n)} == frame + Left(n, Emptied);
        r := Emptied;
      case Extension(_, _) =>
        r := DeleteInExtension(n, key, offset, frame);
      case Branch(_) =>
        r := DeleteInBranchNode(n, key, offset, frame);
    }

    method DeleteInExtension(n: Node, key: Key, offset: uint8, ghost frame: set<Hash>) returns (r: Deletion)
      requires n.Extension?
      requires |key| <= 128 && At(n, key, offset as nat)
      requires frame !! Reach(n) && Holds(frame + Reach(n)) && Apart(frame, n, key[..offset])
      modifies kvStore.cb, kvStore.cb.cache
      ensures kvStore.cb.Extended()
      ensures r == Deleted(n, key, offset as nat)
      ensures Holds(frame + Left(n, r))
      ensures r.NotFound? ==> kvStore.cb.state == old(kvStore.cb.state)
      decreases n, 0
    {
      hide Holds, WellFormed, Deleted, Apart;
      var Extension(path, h) := n;
      AtIsOpen(n, key, offset as nat);
      ExtensionStep(path, h, key, offset as nat);
      var matched := CommonPrefixLength(path, key[offset..]);
      DeleteExtensionIs(path, h, key, offset as nat, matched as nat);
      if matched as int != |path| {
        return NotFound;
      }
      DeleteAtEnd(path, h, key, offset as nat, matched as nat);
      NotBelowItself(n);
      assert frame + Reach(n) == frame + {HashOf(n)} + Reach(h.node);
      ApartFromEnd(frame, path, h, key[..offset]);
      assert key[..offset] + path == key[..offset + matched];
      var child := LoadNodeFromDB(h, frame + Reach(n));
      var left := DeleteNode(child.value, key, offset + matched, frame + {HashOf(n)});
      match left
      case NotFound =>
        r := NotFound;
      case Emptied =>
        assert false;
      case Kept(c) =>
        r := MergeExtension(n, c, key[..offset], |key|, frame);
    }

    /** The new child of an extension is merged into it, takes its place, or hangs below it. */
    method MergeExtension(n: Node, c: Node, ghost p: Key, ghost len: nat, ghost frame: set<Hash>) returns (r: Deletion)
      requires n.Extension? && HashOf(n) !in frame + Reach(c)
      requires WellFormed(c, p + n.path, len) && Apart(frame, n, p)
      requires Holds(frame + {HashOf(n)} + Reach(c))
      modifies kvStore.cb, kvStore.cb.cache
      ensures kvStore.cb.Extended()
      ensures r == Shorten(n.path, Kept(c)) && Holds(frame + Left(n, r))
    {
      hide Holds;
      ghost var s := frame + {HashOf(n)} + Reach(c);
      match c
      case Extension(path, h) =>
        NotBelowItself(c);
        NotApart(frame, n, p, len, c, n.path);
        DeleteNodeFromDB(n, s);
        DeleteNodeFromDB(c, s - {HashOf(n)});
        var e := Extension(n.path + path, h);
        PutNodeIntoDB(e, s - {HashOf(n)} - {HashOf(c)});
        assert s - {HashOf(n)} - {HashOf(c)} + {HashOf(e)} == frame + Reach(e);
        r := Kept(e);
      case Leaf(_, _) =>
        DeleteNodeFromDB(n, s);
        assert s - {HashOf(n)} == frame + Reach(c);
        r := Kept(c);
      case Branch(_) =>
        var e := UpdateExtensionChild(n, c, frame);
        r := Kept(e);
    }

    method DeleteInBranchNode(n: Node, key: Key, offset: uint8, ghost frame: set<Hash>) returns (r: Deletion)
      requires n.Branch?
      requires |key| <= 128 && At(n, key, offset as nat)
      requires frame !! Reach(n) && Holds(frame + Reach(n)) && Apart(frame, n, key[..offset])
      modifies kvStore.cb, kvStore.cb.cache
      ensures kvStore.cb.Extended()
      ensures r == Deleted(n, key, offset as nat)
      ensures Holds(frame + Left(n, r))
      ensures r.NotFound? ==> kvStore.cb.state == old(kvStore.cb.state)
      decreases n, 0
    {
      hide Holds;
      BranchShape(n.hashes, key[..offset], |key|);
      hide WellFormed;
      DeleteUnder(n.hashes, key, offset as nat);
      var k := key[offset];
      if k !in n.hashes {
        return NotFound;
      }
      NotBelowItself(n);
      ReachOfBranch(n.hashes, k);
      var left := DeleteBelow(n, k, key, offset, frame);
      ghost var s := frame + {HashOf(n)} + Beside(n.hashes, k);
      match left
      case NotFound =>
        r := NotFound;
        assert s + Reach(n.hashes[k].node) == frame + Reach(n);
      case Kept(c) =>
        var b := UpdateBranchChild(n, k, c, frame);
        r := Kept(b);
      case Emptied =>
        assert |n.hashes| != 1;
        assert s + {} == s;
        if |n.hashes| == 2 {
          var o := Collapse(n, k, frame);
          r := Kept(o);
        } else {
          var b := DropBranchChild(n, k, frame);
          r := Kept(b);
        }
    }

    /** Loads the child of a branch under a byte and deletes the key there. */
    method DeleteBelow(n: Node, k: Byte, key: Key, offset: uint8, ghost frame: set<Hash>) returns (left: Deletion)
      requires n.Branch? && k in n.hashes && OpenAt(n, key, offset as nat)
      requires (offset as nat) < |key| <= 128 && k == key[offset] && At(n.hashes[k].node, key, offset as nat + 1)
      requires |n.hashes| >= 2 || frame == {}
      requires frame !! Reach(n) && Holds(frame + Reach(n)) && Apart(frame, n, key[..offset])
      modifies kvStore.cb, kvStore.cb.cache
      ensures kvStore.cb.Extended()
      ensures left == Deleted(n.hashes[k].node, key, offset as nat + 1)
      ensures Holds(frame + {HashOf(n)} + Beside(n.hashes, k) + Left(n.hashes[k].node, left))
      ensures left.NotFound? ==> kvStore.cb.state == old(kvStore.cb.state)
      decreases n, 0, 0
    {
      hide Holds, WellFormed, Deleted;
      ReachOfBranch(n.hashes, k);
      NotBelowItself(n);
      BesideIsDisjoint(n.hashes, key[..offset], |key|, k);
      ApartFromChild(frame, n.hashes, key[..offset], |key|, k);
      assert key[..offset] + [k] == key[..offset + 1];
      assert frame + Reach(n) == frame + {HashOf(n)} + Beside(n.hashes, k) + Reach(n.hashes[k].node);
      var child := LoadNodeFromDB(n.hashes[k], frame + Reach(n));
      left := DeleteNode(child.value, key, offset + 1, frame + {HashOf(n)} + Beside(n.hashes, k));
    }

    /** The only other child takes the place of a branch that lost the child under `k`. */
    method Collapse(n: Node, k: Byte, ghost frame: set<Hash>) returns (r: Node)
      requires n.Branch? && |n.hashes| == 2 && k in n.hashes
      requires frame !! Reach(n) && Holds(frame + {HashOf(n)} + Beside(n.hashes, k))
      modifies kvStore.cb, kvStore.cb.cache
      ensures kvStore.cb.Extended()
      ensures var o := Orphan(n.hashes, k);
              r == Lengthen(o, n.hashes[o].node) && Holds(frame + Reach(r))
    {
      hide Holds, Beside, BelowReach, Lengthen, Orphan;
      ghost var s := frame + {HashOf(n)} + Beside(n.hashes, k);
      NotBelowItself(n);
      ReachOfBranch(n.hashes, k);
      BesideIsOrphan(n.hashes, k);
      DeleteNodeFromDB(n, s);
      assert Orphan(n.hashes, k) in n.hashes;
      var o :| o in n.hashes && o != k;
      OrphanIs(n.hashes, k, o);
      var h := n.hashes[o];
      assert s - {HashOf(n)} == frame + Reach(h.node);
      var orphan := LoadNodeFromDB(h, frame + Reach(h.node));
      r := TakePlace(o, orphan.value, frame);
    }

    method TakePlace(o: Byte, orphan: Node, ghost frame: set<Hash>) returns (r: Node)
      requires HashOf(orphan) !in frame && Holds(frame + Reach(orphan))
      modifies kvStore.cb, kvStore.cb.cache
      ensures kvStore.cb.Extended()
      ensures r == Lengthen(o, orphan) && Holds(frame + Reach(r))
    {
      hide Holds;
      match orphan
      case Extension(path, c) =>
        NotBelowItself(orphan);
        DeleteNodeFromDB(orphan, frame + Reach(orphan));
        r := Extension([o] + path, c);
        PutNodeIntoDB(r, frame + Reach(orphan) - {HashOf(orphan)});
        assert frame + Reach(orphan) - {HashOf(orphan)} + {HashOf(r)} == frame + Reach(r);
      case Leaf(_, _) =>
        r := orphan;
      case Branch(_) =>
        r := Extension([o], HashOf(orphan));
        PutNodeIntoDB(r, frame + Reach(orphan));
        assert frame + Reach(orphan) + {HashOf(r)} == frame + Reach(r);
    }

    // ---- the trie's own operations

    /** The stored value, or why there is none. */
    method Get(key: Key) returns (value: Option<Value>, status: Status)
      requires Valid()
      ensures |key| != keyLength ==> status == InvalidKey && value == None
      ensures |key| == keyLength ==>
                if key in Contents(root) then status == Ok && value == Some(Contents(root)[key])
                else status == NotExist && value == None
    {
      if |key| != keyLength {
        return None, InvalidKey;
      }
      RootAt(root, key);
      SearchIsLookup(root, key);
      var t := SearchNode(root, key, 0, Reach(root));
      if t.None? {
        return None, NotExist;
      }
      return Some(t.value.value), Ok;
    }

    method Upsert(key: Key, value: Value) returns (status: Status)
      requires Valid()
      modifies this, kvStore.cb, kvStore.cb.cache
      ensures Valid() && kvStore.cb.Extended()
      ensures |key| != keyLength ==>
                status == InvalidKey && root == old(root) && kvStore.cb.state == old(kvStore.cb.state)
      ensures |key| == keyLength ==> status == Ok && Contents(root) == old(Contents(root))[key := value]
      ensures root == Step(old(root), keyLength, UpsertOp(key, value))
      ensures TrieMarks.Marks(root) ==
              TrieMarks.StepMarks(old(Contents(root)), old(TrieMarks.Marks(root)), keyLength, UpsertOp(key, value))
    {
      hide TrieMarks.Marks, TrieMarks.StepMarks, Contents, Holds, Upserted, WellFormed, BelowReach;
      TrieMarks.StepIsTheMarks(root, keyLength, UpsertOp(key, value));
      if |key| != keyLength {
        return InvalidKey;
      }
      RootAt(root, key);
      UpsertIsUpdate(root, key, value);
      assert {} + Reach(root) == Reach(root);
      var newRoot := UpsertNode(root, key, 0, value, {});
      assert {} + Reach(newRoot) == Reach(newRoot);
      ResetRoot(newRoot);
      return Ok;
    }

    method Delete(key: Key) returns (status: Status)
      requires Valid()
      modifies this, kvStore.cb, kvStore.cb.cache
      ensures Valid() && kvStore.cb.Extended()
      ensures |key| != keyLength ==> status == InvalidKey
      ensures |key| == keyLength ==> status == if key in old(Contents(root)) then Ok else NotExist
      ensures status != Ok ==> root == old(root) && kvStore.cb.state == old(kvStore.cb.state)
      ensures status == Ok ==> Contents(root) == old(Contents(root)) - {key}
      ensures root == Step(old(root), keyLength, DeleteOp(key))
      ensures TrieMarks.Marks(root) ==
              TrieMarks.StepMarks(old(Contents(root)), old(TrieMarks.Marks(root)), keyLength, DeleteOp(key))
    {
      hide TrieMarks.Marks, TrieMarks.StepMarks, DeleteRoot, Contents, Holds, WellFormed;
      TrieMarks.StepIsTheMarks(root, keyLength, DeleteOp(key));
      if |key| != keyLength {
        return InvalidKey;
      }
      DeleteIsRemove(root, key);
      var r := DeleteAtRoot(key);
      if !r.Kept? {
        return NotExist;
      }
      ResetRoot(r.node);
      return Ok;
    }

    /** The root keeps its place, with the child under the key's first byte changed or gone. */
    method DeleteAtRoot(key: Key) returns (r: Deletion)
      requires Valid() && |key| == keyLength
      modifies kvStore.cb, kvStore.cb.cache
      ensures kvStore.cb.Extended()
      ensures r == DeleteRoot(root, key)
      ensures Holds(Left(root, r))
      ensures r.NotFound? ==> kvStore.cb.state == old(kvStore.cb.state)
    {
      hide Holds, WellFormed, Deleted, DeleteRoot, BelowReach, Beside;
      assert root == Branch(root.hashes);
      DeleteRootIs(root.hashes, key);
      DeleteUnder(root.hashes, key, 0);
      var k := key[0];
      if k !in root.hashes {
        return NotFound;
      }
      RootAround(root.hashes, k);
      var left := DeleteBelow(root, k, key, 0, {});
      assert left == Deleted(root.hashes[k].node, key, 1);
      if left == NotFound {
        return NotFound;
      }
      var newRoot := ReplaceChild(root, k, left);
      r := Kept(newRoot);
    }

    /** What is reachable from the root: itself, what is below one child, and what is below the others. */
    lemma RootAround(hs: map<Byte, Hash>, k: Byte)
      requires k in hs
      ensures HashOf(Branch(hs)) !in Beside(hs, k) && {} + Reach(Branch(hs)) == Reach(Branch(hs))
      ensures {} + {HashOf(Branch(hs))} + Beside(hs, k) + Reach(hs[k].node) == Reach(Branch(hs))
    {
      NotBelowItself(Branch(hs));
      ReachOfBranch(hs, k);
    }

    /** The root with a child changed or dropped. */
    method ReplaceChild(n: Node, k: Byte, left: Deletion) returns (r: Node)
      requires n.Branch? && left != NotFound
      requires HashOf(n) !in Beside(n.hashes, k) && (left.Kept? ==> HashOf(n) !in Reach(left.node))
      requires Holds({} + {HashOf(n)} + Beside(n.hashes, k) + if left.Kept? then Reach(left.node) else {})
      modifies kvStore.cb, kvStore.cb.cache
      ensures kvStore.cb.Extended()
      ensures r == Branch(if left.Kept? then n.hashes[k := HashOf(left.node)] else n.hashes - {k})
      ensures Holds(Reach(r))
    {
      hide Holds;
      if left.Kept? {
        r := UpdateBranchChild(n, k, left.node, {});
      } else {
        ghost var s := {} + {HashOf(n)} + Beside(n.hashes, k);
        assert s + {} == s;
        r := DropBranchChild(n, k, {});
      }
      assert {} + Reach(r) == Reach(r);
    }

    method ResetRoot(newRoot: Node)
      modifies this`root, this`rootHash
      ensures root == newRoot && rootHash == HashOf(newRoot)
    {
      root := newRoot;
      rootHash := HashOf(newRoot);
    }

    /**
    Loads a root from the store. On a store that holds exactly the nodes of some
    trie, its root hash opens that trie again.
    */
    method SetRootHash(h: Option<Hash>) returns (status: Status)
      requires kvStore.Valid()
      modifies this`root, this`rootHash
      ensures var target := if h.None? then EMPTY_HASH else h.value;
              && (status == Ok <==> Loaded(target).Some? && Loaded(target).value.Branch?)
              && (status == Ok ==> Some(root) == Loaded(target) && rootHash == HashOf(root))
              && (status != Ok ==> root == old(root) && rootHash == old(rootHash))
              && (0 < keyLength <= 128 && IsRoot(target.node, keyLength) && Holds(Reach(target.node)) ==>
                    status == Ok && Valid() && root == target.node)
    {
      var target := if h.None? then EMPTY_HASH else h.value;
      var node := LoadStored(target);
      if Holds(Reach(target.node)) { LoadedIs(target, Reach(target.node)); }
      if node.None? {
        return NotExist;
      }
      if !node.value.Branch? {
        return InvalidTrie;
      }
      ResetRoot(node.value);
      return Ok;
    }
  }

  lemma ReachOfFork(shared: Key, a: Byte, m: Node, b: Byte, n: Node)
    requires a != b
    ensures var branch := Branch(map[a := HashOf(m), b := HashOf(n)]);
            && BelowReach(branch) == Reach(m) + Reach(n)
            && Reach(Fork(shared, a, m, b, n)) ==
               {HashOf(Fork(shared, a, m, b, n)), HashOf(branch)} + Reach(m) + Reach(n)
  {
    var hs := map[a := HashOf(m), b := HashOf(n)];
    assert hs.Keys == {a, b} && hs[a] == HashOf(m) && hs[b] == HashOf(n);
    forall h | h in Reach(m) ensures h in BelowReach(Branch(hs)) {
      assert a in hs.Keys && h in {hs[a]} + BelowReach(hs[a].node);
    }
    forall h | h in Reach(n) ensures h in BelowReach(Branch(hs)) {
      assert b in hs.Keys && h in {hs[b]} + BelowReach(hs[b].node);
    }
  }
}
