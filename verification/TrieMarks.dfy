/**
The root hash of a trie, exactly. Two tries with one map differ only in where they have extensions with an empty path,
here called marks. Where those come and go is a matter of the keys alone: a mark comes where a new fork opens right
above a fork, and goes when either of the two closes. So the root after every history is told from the maps it went
through, without looking at a node.
*/
module TrieMarks {
  import opened ByteStrings
  import opened TrieNodes
  import opened TrieOps
  import opened TrieCanonical
  import opened TrieMap

  /** The node at position `p` has an extension with an empty path at position `r`. */
  ghost predicate Mark(n: Node, p: Key, r: Key)
    decreases n
  {
    match n
    case Leaf(_, _) => false
    case Extension(path, c) => (path == [] && r == p) || Mark(c.node, p + path, r)
    case Branch(hs) => |p| < |r| && r[|p|] in hs && Mark(hs[r[|p|]].node, p + [r[|p|]], r)
  }

  ghost function Keys(n: Node): set<Key> {
    set e | e in Entries(n) :: e.0
  }

  /** Some keys begin with `q` and part right after it. */
  ghost predicate Forks(ks: set<Key>, q: Key) {
    exists j, k :: j in ks && k in ks && Part(j, k, q)
  }

  ghost predicate Part(j: Key, k: Key, q: Key) {
    q < j && q < k && j[|q|] != k[|q|]
  }

  function Parent(r: Key): Key
    requires r != []
  {
    r[..|r| - 1]
  }

  // ---- keys and forks of a node

  ghost predicate AllBelow(ks: set<Key>, p: Key) {
    forall k :: k in ks ==> p <= k
  }

  lemma KeysBelow(n: Node, p: Key, len: nat)
    requires Open(n, p, len)
    ensures AllBelow(Keys(n), p) && forall k :: k in Keys(n) ==> |k| == len
  {
    forall k | k in Keys(n) ensures |k| == len && p <= k {
      var e :| e in Entries(n) && e.0 == k;
      EntriesHavePrefix(n, p, len, e);
    }
  }

  lemma ForksAreBelow(ks: set<Key>, p: Key, q: Key)
    requires AllBelow(ks, p) && Forks(ks, q)
    ensures p <= q
  {
    var j, k :| j in ks && k in ks && Part(j, k, q);
    SharedPrefix(p, j, k, |q|);
    assert p == j[..|p|] && q == j[..|q|];
  }

  lemma BranchForks(hs: map<Byte, Hash>, p: Key, len: nat)
    requires WellFormed(Branch(hs), p, len)
    ensures Forks(Keys(Branch(hs)), p)
  {
    var e, f := TwoEntries(hs, p, len);
    WellFormedIsOpen(Branch(hs), p, len);
    EntriesHavePrefix(Branch(hs), p, len, e);
    EntriesHavePrefix(Branch(hs), p, len, f);
    assert e.0 in Keys(Branch(hs)) && f.0 in Keys(Branch(hs)) && Part(e.0, f.0, p);
  }

  /** The keys below one child are the branch's keys with that byte. */
  lemma ChildKeys(hs: map<Byte, Hash>, p: Key, len: nat, k: Key)
    requires Open(Branch(hs), p, len)
    ensures k in Keys(Branch(hs)) ==> |p| < |k| && p <= k && k[|p|] in hs && k in Keys(hs[k[|p|]].node)
    ensures forall b :: b in hs && k in Keys(hs[b].node) ==> k in Keys(Branch(hs)) && |p| < |k| && k[|p|] == b
  {
    if k in Keys(Branch(hs)) {
      var e :| e in Entries(Branch(hs)) && e.0 == k;
      var b :| b in hs && e in Entries(hs[b].node);
      EntryByte(hs, p, len, b, e);
    }
    forall b | b in hs && k in Keys(hs[b].node) ensures k in Keys(Branch(hs)) && |p| < |k| && k[|p|] == b {
      var e :| e in Entries(hs[b].node) && e.0 == k;
      EntryByte(hs, p, len, b, e);
    }
  }

  /** Below a child, a branch forks where the child does. */
  lemma ForksInChild(hs: map<Byte, Hash>, p: Key, len: nat, b: Byte, q: Key)
    requires Open(Branch(hs), p, len) && b in hs && p + [b] <= q
    ensures Forks(Keys(Branch(hs)), q) <==> Forks(Keys(hs[b].node), q)
  {
    assert q[|p|] == b;
    if Forks(Keys(Branch(hs)), q) {
      var j, k :| j in Keys(Branch(hs)) && k in Keys(Branch(hs)) && Part(j, k, q);
      ChildKeys(hs, p, len, j);
      ChildKeys(hs, p, len, k);
    }
    if Forks(Keys(hs[b].node), q) {
      var j, k :| j in Keys(hs[b].node) && k in Keys(hs[b].node) && Part(j, k, q);
      ChildKeys(hs, p, len, j);
      ChildKeys(hs, p, len, k);
    }
  }

  // ---- where marks can be

  lemma {:induction false} MarkBelow(n: Node, p: Key, r: Key)
    requires Mark(n, p, r)
    ensures p <= r && (n.Branch? ==> |p| < |r|)
    decreases n
  {
    match n
    case Extension(path, c) =>
      if !(path == [] && r == p) { MarkBelow(c.node, p + path, r); }
      assert p <= p + path;
    case Branch(hs) =>
      MarkBelow(hs[r[|p|]].node, p + [r[|p|]], r);
      assert p <= p + [r[|p|]];
  }

  /** A mark is at a fork; and unless it is the topmost node itself, right below one. */
  lemma {:induction false} MarkForks(n: Node, p: Key, len: nat, r: Key)
    requires WellFormed(n, p, len) && Mark(n, p, r)
    ensures p <= r && Forks(Keys(n), r)
    ensures r != p ==> r != [] && Forks(Keys(n), Parent(r))
    decreases n
  {
    match n
    case Extension(path, c) =>
      assert Keys(n) == Keys(c.node);
      MarkBelow(n, p, r);
      assert p + [] == p;
      if path == [] && r == p {
        BranchForks(c.node.hashes, p, len);
      } else {
        MarkForks(c.node, p + path, len, r);
        MarkBelow(c.node, p + path, r);
      }
    case Branch(hs) =>
      MarkInBranch(hs, p, len, r);
      if r != [] && Parent(r) == p { BranchForks(hs, p, len); }
  }

  /** In a branch with any number of children, such as the root. */
  lemma {:induction false} MarkInBranch(hs: map<Byte, Hash>, p: Key, len: nat, r: Key)
    requires Open(Branch(hs), p, len) && Mark(Branch(hs), p, r)
    ensures p < r && Forks(Keys(Branch(hs)), r)
    ensures Parent(r) != p ==> Forks(Keys(Branch(hs)), Parent(r))
    decreases Branch(hs), 0
  {
    var b := r[|p|];
    MarkForks(hs[b].node, p + [b], len, r);
    MarkBelow(Branch(hs), p, r);
    ForksInChild(hs, p, len, b, r);
    if r != p + [b] {
      assert p + [b] <= Parent(r);
      ForksInChild(hs, p, len, b, Parent(r));
    } else {
      assert Parent(r) == p;
    }
  }

  // ---- entries and marks determine a trie

  ghost predicate SameMarks(m: Node, n: Node, p: Key) {
    forall r :: Mark(m, p, r) <==> Mark(n, p, r)
  }

  lemma {:induction false} SameTree(m: Node, n: Node, p: Key, len: nat)
    requires WellFormed(m, p, len) && WellFormed(n, p, len)
    requires Entries(m) == Entries(n) && SameMarks(m, n, p)
    ensures m == n
    decreases m, 1
  {
    if m.Leaf? || n.Leaf? {
      LeafIsAlone(m, n, p, len);
    } else {
      PeelMeans(m, p, len);
      PeelMeans(n, p, len);
      var (q, g) := Peel(m);
      var (s, h) := Peel(n);
      ForkPoint(g, p + q, h, p + s, len);
      assert q == (p + q)[|p|..] == s;
      hide WellFormed, Entries;
      PeeledMarks(m, p);
      PeeledMarks(n, p);
      forall r ensures Mark(Branch(g), p + q, r) <==> Mark(Branch(h), p + q, r) {
        assert Mark(m, p, r) <==> Mark(n, p, r);
      }
      assert Mark(m, p, p) <==> Mark(n, p, p);
      WellFormedIsOpen(Branch(g), p + q, len);
      WellFormedIsOpen(Branch(h), p + q, len);
      SameTreeBelow(g, h, p + q, len);
    }
  }

  /** The marks of a node that is no leaf: those below, and its own if it is an extension with an empty path. */
  lemma PeeledMarks(n: Node, p: Key)
    requires n.Branch? || (n.Extension? && n.child.node.Branch?)
    ensures var (q, hs) := Peel(n);
            && (forall r :: Mark(Branch(hs), p + q, r) <==> Mark(n, p, r) && |p + q| < |r|)
            && (q == [] ==> (n.Extension? <==> Mark(n, p, p)))
  {
    var (q, hs) := Peel(n);
    assert p + [] == p;
    forall r | Mark(Branch(hs), p + q, r) ensures |p + q| < |r| { MarkBelow(Branch(hs), p + q, r); }
  }

  lemma {:induction false} SameTreeBelow(g: map<Byte, Hash>, h: map<Byte, Hash>, p: Key, len: nat)
    requires Open(Branch(g), p, len) && Open(Branch(h), p, len)
    requires Entries(Branch(g)) == Entries(Branch(h)) && SameMarks(Branch(g), Branch(h), p)
    ensures g == h
    decreases Branch(g), 0
  {
    forall b: Byte
      ensures b in g <==> b in h
      ensures b in g && b in h ==> g[b].node == h[b].node
    {
      ChildEntries(g, p, len, b);
      ChildEntries(h, p, len, b);
      if b in g && b in h {
        ChildMarks(g, h, p, b);
        ChildMarks(h, g, p, b);
        SameTree(g[b].node, h[b].node, p + [b], len);
      }
    }
    assert g.Keys == h.Keys;
  }

  lemma ChildMarks(g: map<Byte, Hash>, h: map<Byte, Hash>, p: Key, b: Byte)
    requires SameMarks(Branch(g), Branch(h), p) && b in g && b in h
    ensures forall r :: Mark(g[b].node, p + [b], r) ==> Mark(h[b].node, p + [b], r)
  {
    forall r | Mark(g[b].node, p + [b], r) ensures Mark(h[b].node, p + [b], r) {
      MarkBelow(g[b].node, p + [b], r);
      assert r[|p|] == b;
      assert Mark(Branch(g), p, r);
    }
  }

  /** Two tries are the same, root hash and all, exactly if they hold the same entries and have the same marks. */
  lemma SameRootIff(m: Node, n: Node, len: nat)
    requires IsRoot(m, len) && IsRoot(n, len)
    ensures HashOf(m) == HashOf(n) <==> Contents(m) == Contents(n) && SameMarks(m, n, [])
  {
    if Contents(m) == Contents(n) && SameMarks(m, n, []) {
      ContentsItems(m, [], len);
      ContentsItems(n, [], len);
      assert Entries(m) == Entries(n);
      SameTreeBelow(m.hashes, n.hashes, [], len);
    }
  }

  // ---- what an upsert does to the marks

  ghost predicate Parts(ks: set<Key>, key: Key, q: Key) {
    exists j :: j in ks && Part(j, key, q)
  }

  /** A new key opens a fork right above one that is there. */
  ghost predicate Opened(ks: set<Key>, key: Key, r: Key) {
    r != [] && Forks(ks, r) && !Forks(ks, Parent(r)) && Parts(ks, key, Parent(r))
  }

  lemma {:induction false} UpsertMarks(n: Node, key: Key, offset: nat, value: Value, r: Key)
    requires At(n, key, offset) && OpenAt(n, key, offset)
    ensures Mark(Upserted(n, key, offset, value), key[..offset], r) <==>
            Mark(n, key[..offset], r) || Opened(Keys(n), key, r)
    decreases n, 1
  {
    hide WellFormed, Opened, Upserted;
    match n
    case Leaf(k, v) =>
      UpsertLeafMarks(k, v, key, offset, value, r);
    case Extension(path, c) =>
      UpsertExtensionMarks(path, c, key, offset, value, r);
    case Branch(hs) =>
      UpsertBranchMarks(hs, key, offset, value, r);
      BranchForks(hs, key[..offset], |key|);
      assert Opened(Keys(n), key, r) ==> Parent(r) != key[..offset] by { OpenedMeans(Keys(n), key, r); }
  }

  lemma OpenedMeans(ks: set<Key>, key: Key, r: Key)
    ensures Opened(ks, key, r) <==> r != [] && Forks(ks, r) && !Forks(ks, Parent(r)) && Parts(ks, key, Parent(r))
  {
  }

  lemma MarksOfFork(shared: Key, a: Byte, m: Node, b: Byte, n: Node, p: Key, r: Key)
    requires a != b
    ensures Mark(Fork(shared, a, m, b, n), p, r) <==>
            Mark(m, p + shared + [a], r) || Mark(n, p + shared + [b], r)
  {
    var hs := map[a := HashOf(m), b := HashOf(n)];
    var q := p + shared;
    assert p + [] == p;
    assert Mark(Fork(shared, a, m, b, n), p, r) <==> Mark(Branch(hs), q, r);
    if Mark(m, q + [a], r) { MarkBelow(m, q + [a], r); assert r[|q|] == a; }
    if Mark(n, q + [b], r) { MarkBelow(n, q + [b], r); assert r[|q|] == b; }
  }

  lemma UpsertLeafMarks(k: Key, v: Value, key: Key, offset: nat, value: Value, r: Key)
    requires OpenAt(Leaf(k, v), key, offset)
    ensures !Mark(Upserted(Leaf(k, v), key, offset, value), key[..offset], r) && !Opened(Keys(Leaf(k, v)), key, r)
  {
    var n := Leaf(k, v);
    assert forall j :: j in Keys(n) ==> j == k;
    var m := CommonPrefix(k[offset..], key[offset..]);
    var at := offset + m;
    if at != |key| {
      assert k[offset..][m] == k[at] && key[offset..][m] == key[at];
      MarksOfFork(k[offset..at], k[at], n, key[at], Leaf(key, value), key[..offset], r);
    }
  }

  lemma {:induction false} UpsertExtensionMarks(path: Key, c: Hash, key: Key, offset: nat, value: Value, r: Key)
    requires At(Extension(path, c), key, offset) && OpenAt(Extension(path, c), key, offset)
    ensures var n := Extension(path, c);
            Mark(Upserted(n, key, offset, value), key[..offset], r) <==>
            Mark(n, key[..offset], r) || Opened(Keys(n), key, r)
    decreases Extension(path, c), 0
  {
    hide WellFormed, Opened, Upserted, CommonPrefix;
    var n := Extension(path, c);
    ExtensionStep(path, c, key, offset);
    ExtensionShape(path, c, key[..offset], |key|);
    var m := CommonPrefix(path, key[offset..]);
    UpsertExtensionIs(path, c, key, offset, value, m);
    assert Keys(n) == Keys(c.node);
    if m == |path| {
      FollowedPath(path, key, offset, m);
      UpsertMarks(c.node, key, offset + m, value, r);
    } else {
      PathParts(path, key, offset);
      MarksOfFork(key[offset..offset + m], path[m], Extension(path[m + 1..], c), key[offset + m], Leaf(key, value),
                  key[..offset], r);
      SplitOpens(path, c, key, offset, m, r);
    }
  }

  lemma FollowedPath(path: Key, key: Key, offset: nat, m: nat)
    requires offset + m <= |key| && m == |path| == CommonPrefix(path, key[offset..])
    ensures key[..offset] + path == key[..offset + m]
  {
    assert path == path[..m] == key[offset..][..m];
  }

  /** A path that a key leaves before its end gives a mark exactly if nothing is left of the path after that. */
  lemma SplitOpens(path: Key, c: Hash, key: Key, offset: nat, m: nat, r: Key)
    requires At(Extension(path, c), key, offset) && offset + |path| < |key|
    requires m == CommonPrefix(path, key[offset..]) < |path|
    ensures Opened(Keys(c.node), key, r) <==> m + 1 == |path| && r == key[..offset] + path
  {
    var p, rest := key[..offset], key[offset..];
    var end, q := p + path, p + path[..m];
    var ks := Keys(c.node);
    assert key == p + rest;
    ExtensionShape(path, c, p, |key|);
    WellFormedIsOpen(c.node, end, |key|);
    KeysBelow(c.node, end, |key|);
    BranchForks(c.node.hashes, end, |key|);
    hide WellFormed, Entries, Keys, CommonPrefix;
    LeavesPath(path, p, rest, m);
    OpensAbove(ks, end, q, key, r);
  }

  lemma LeavesPath(path: Key, p: Key, rest: Key, m: nat)
    requires |path| < |rest| && m == CommonPrefix(path, rest) < |path|
    ensures var end, q, key := p + path, p + path[..m], p + rest;
            q < end && q < key && end[|q|] != key[|q|]
  {
    assert path[..m] == rest[..m] && path[m] != rest[m];
    LeaveAt(path, p, rest, m);
  }

  lemma LeaveAt(path: Key, p: Key, rest: Key, m: nat)
    requires m < |path| && m < |rest| && path[..m] == rest[..m] && path[m] != rest[m]
    ensures var end, q, key := p + path, p + path[..m], p + rest;
            q < end && q < key && end[|q|] != key[|q|]
  {
    var q := p + path[..m];
    assert path == path[..m] + path[m..] && rest == path[..m] + rest[m..];
    assert p + path == q + path[m..] && p + rest == q + rest[m..];
  }

  /** The keys all begin with `end` and fork there; a key that leaves them after `q` opens a fork at `q`. */
  lemma OpensAbove(ks: set<Key>, end: Key, q: Key, key: Key, r: Key)
    requires AllBelow(ks, end) && Forks(ks, end) && q < end && q < key && end[|q|] != key[|q|]
    ensures Opened(ks, key, r) <==> r == end && |q| + 1 == |end|
  {
    assert !Forks(ks, q) by { if Forks(ks, q) { ForksAreBelow(ks, end, q); } }
    if Opened(ks, key, r) {
      ForksAreBelow(ks, end, r);
      var j :| j in ks && Part(j, key, Parent(r));
      assert end <= j;
    }
    if r == end && |q| + 1 == |end| {
      assert Parent(r) == q;
      var j, k :| j in ks && k in ks && Part(j, k, end);
      assert end <= j && Part(j, key, q);
    }
  }

  lemma {:induction false} UpsertBranchMarks(hs: map<Byte, Hash>, key: Key, offset: nat, value: Value, r: Key)
    requires OpenAt(Branch(hs), key, offset)
    ensures var n := Branch(hs);
            Mark(Upserted(n, key, offset, value), key[..offset], r) <==>
            Mark(n, key[..offset], r) || (Opened(Keys(n), key, r) && Parent(r) != key[..offset])
    decreases Branch(hs), 0
  {
    hide WellFormed, Opened;
    var p, k := key[..offset], key[offset];
    BranchStep(hs, key, offset);
    if k in hs {
      OpenedInChild(hs, key, offset, r);
      UpsertMarks(hs[k].node, key, offset + 1, value, r);
      if Opened(Keys(hs[k].node), key, r) { OpenedIsBelow(Keys(hs[k].node), key, p + [k], r); }
      if Mark(hs[k].node, p + [k], r) { MarkBelow(hs[k].node, p + [k], r); }
    } else {
      NothingOpened(hs, key, offset, r);
    }
  }

  lemma OpenedIsBelow(ks: set<Key>, key: Key, p: Key, r: Key)
    requires AllBelow(ks, p) && p <= key && Opened(ks, key, r)
    ensures p <= Parent(r) && p < r && Parent(r) <= key
  {
    var j :| j in ks && Part(j, key, Parent(r));
    SharedPrefix(p, j, key, |Parent(r)|);
    assert p == key[..|p|] && Parent(r) == key[..|Parent(r)|];
  }

  /** What opens in a branch, but for its own position, opens below the child on the key's way. */
  lemma OpenedInChild(hs: map<Byte, Hash>, key: Key, offset: nat, r: Key)
    requires OpenAt(Branch(hs), key, offset) && offset < |key| && key[offset] in hs
    ensures var k, p := key[offset], key[..offset];
            && AllBelow(Keys(hs[k].node), p + [k]) && p + [k] <= key
            && (Opened(Keys(hs[k].node), key, r) <==>
                Opened(Keys(Branch(hs)), key, r) && Parent(r) != p)
  {
    var k, p := key[offset], key[..offset];
    var n, c := Branch(hs), hs[k].node;
    BranchStep(hs, key, offset);
    KeysBelow(n, p, |key|);
    KeysBelow(c, p + [k], |key|);
    if Opened(Keys(c), key, r) {
      OpenedIsBelow(Keys(c), key, p + [k], r);
      SameOpened(hs, key, offset, r);
    }
    if Opened(Keys(n), key, r) && Parent(r) != p {
      OpenedIsBelow(Keys(n), key, p, r);
      assert p + [k] <= Parent(r) by { assert Parent(r) == key[..|Parent(r)|]; }
      SameOpened(hs, key, offset, r);
    }
  }

  lemma SameOpened(hs: map<Byte, Hash>, key: Key, offset: nat, r: Key)
    requires OpenAt(Branch(hs), key, offset) && offset < |key| && key[offset] in hs
    requires r != [] && key[..offset] + [key[offset]] <= Parent(r)
    ensures Opened(Keys(hs[key[offset]].node), key, r) <==> Opened(Keys(Branch(hs)), key, r)
  {
    var k, p := key[offset], key[..offset];
    assert Parent(r) <= r;
    ForksInChild(hs, p, |key|, k, r);
    ForksInChild(hs, p, |key|, k, Parent(r));
    forall j | Part(j, key, Parent(r)) ensures j in Keys(Branch(hs)) <==> j in Keys(hs[k].node) {
      assert j[offset] == Parent(r)[offset] == k;
      ChildKeys(hs, p, |key|, j);
    }
  }

  lemma NothingOpened(hs: map<Byte, Hash>, key: Key, offset: nat, r: Key)
    requires OpenAt(Branch(hs), key, offset) && offset < |key| && key[offset] !in hs
    ensures Opened(Keys(Branch(hs)), key, r) ==> Parent(r) == key[..offset]
  {
    var p := key[..offset];
    KeysBelow(Branch(hs), p, |key|);
    if Opened(Keys(Branch(hs)), key, r) {
      OpenedIsBelow(Keys(Branch(hs)), key, p, r);
      var j :| j in Keys(Branch(hs)) && Part(j, key, Parent(r));
      ChildKeys(hs, p, |key|, j);
    }
  }

  // ---- what a delete does to the marks

  /** The fork at a mark and the one right above it, unless that is outside, are still there. */
  ghost predicate Stays(ks: set<Key>, p: Key, r: Key) {
    Forks(ks, r) && (r == p || (r != [] && Forks(ks, Parent(r))))
  }

  lemma {:induction false} DeleteMarks(n: Node, key: Key, offset: nat, r: Key)
    requires At(n, key, offset) && Deleted(n, key, offset).Kept?
    ensures var d := Deleted(n, key, offset).node;
            Mark(d, key[..offset], r) <==> Mark(n, key[..offset], r) && Stays(Keys(d), key[..offset], r)
    decreases n, 1
  {
    hide WellFormed, Deleted, Keys;
    match n
    case Leaf(k, v) =>
      DeleteMeans(n, key, offset);
      DeleteLeaf(k, v, key, offset);
    case Extension(path, c) =>
      DeleteExtensionMarks(path, c, key, offset, r);
    case Branch(hs) =>
      DeleteBranchMarks(hs, key, offset, r);
  }

  /** What is marked after a delete has its forks, as every mark has. */
  lemma MarkStays(n: Node, p: Key, len: nat, r: Key)
    requires WellFormed(n, p, len)
    ensures Mark(n, p, r) ==> Stays(Keys(n), p, r)
  {
    if Mark(n, p, r) { MarkForks(n, p, len, r); }
  }

  lemma {:induction false} DeleteExtensionMarks(path: Key, c: Hash, key: Key, offset: nat, r: Key)
    requires At(Extension(path, c), key, offset) && Deleted(Extension(path, c), key, offset).Kept?
    ensures var n := Extension(path, c);
            var d := Deleted(n, key, offset).node;
            Mark(d, key[..offset], r) <==> Mark(n, key[..offset], r) && Stays(Keys(d), key[..offset], r)
    decreases Extension(path, c), 0
  {
    hide WellFormed, Deleted, Keys, CommonPrefix, Stays;
    var n, p := Extension(path, c), key[..offset];
    AtIsOpen(n, key, offset);
    var m := CommonPrefix(path, key[offset..]);
    ExtensionStep(path, c, key, offset);
    DeleteExtensionIs(path, c, key, offset, m);
    FollowedPath(path, key, offset, m);
    var left := Deleted(c.node, key, offset + m);
    DeleteMeans(c.node, key, offset + m);
    ShortenMeans(path, left, p, |key|);
    DeleteMarks(c.node, key, offset + m, r);
    ShortenMarks(path, left.node, c, p, |key|, r);
  }

  /** The marks of an extension over a changed child. */
  lemma ShortenMarks(path: Key, left: Node, c: Hash, p: Key, len: nat, r: Key)
    requires c.node.Branch? && WellFormed(left, p + path, len) && WellFormed(Shorten(path, Kept(left)).node, p, len)
    requires Mark(left, p + path, r) <==> Mark(c.node, p + path, r) && Stays(Keys(left), p + path, r)
    ensures var d := Shorten(path, Kept(left)).node;
            Mark(d, p, r) <==> Mark(Extension(path, c), p, r) && Stays(Keys(d), p, r)
  {
    var d, n := Shorten(path, Kept(left)).node, Extension(path, c);
    MarkStays(d, p, len, r);
    assert p + [] == p;
    assert Entries(d) == Entries(left);
    assert Keys(d) == Keys(left);
    if Mark(c.node, p + path, r) { MarkBelow(c.node, p + path, r); }
    match left
    case Leaf(k, _) =>
      assert forall j :: j in Keys(left) ==> j == k;
    case Extension(q, e) =>
      assert p + (path + q) == p + path + q;
      if q != [] && Forks(Keys(left), p + path) { NoForkOnPath(left, p + path, len); }
    case Branch(_) =>
  }

  lemma NoForkOnPath(n: Node, p: Key, len: nat)
    requires n.Extension? && n.path != [] && WellFormed(n, p, len)
    ensures !Forks(Keys(n), p)
  {
    WellFormedIsOpen(n.child.node, p + n.path, len);
    KeysBelow(n.child.node, p + n.path, len);
    assert Keys(n) == Keys(n.child.node);
    if Forks(Keys(n), p) { ForksAreBelow(Keys(n), p + n.path, p); }
  }

  lemma {:induction false} DeleteBranchMarks(hs: map<Byte, Hash>, key: Key, offset: nat, r: Key)
    requires At(Branch(hs), key, offset) && Deleted(Branch(hs), key, offset).Kept?
    ensures var n := Branch(hs);
            var d := Deleted(n, key, offset).node;
            Mark(d, key[..offset], r) <==> Mark(n, key[..offset], r) && Stays(Keys(d), key[..offset], r)
    decreases Branch(hs), 0
  {
    hide WellFormed, Keys, Stays;
    var n, p := Branch(hs), key[..offset];
    AtIsOpen(n, key, offset);
    BranchStep(hs, key, offset);
    var k := key[offset];
    DeleteMeans(n, key, offset);
    var d := Deleted(n, key, offset).node;
    MarkStays(d, p, |key|, r);
    DeleteMeans(hs[k].node, key, offset + 1);
    match Deleted(hs[k].node, key, offset + 1)
    case Kept(c) =>
      DeleteMarks(hs[k].node, key, offset + 1, r);
      AtIsOpen(d, key, offset);
      if Mark(hs[k].node, p + [k], r) {
        MarkBelow(hs[k].node, p + [k], r);
        StaysInChild(d.hashes, p, |key|, k, r);
      }
    case Emptied =>
      if |hs| == 2 {
        var o := Orphan(hs, k);
        OrphanIs(hs, k, o);
        BranchShape(hs, p, |key|);
        LengthenMarks(o, hs[o].node, p, |key|, r);
        if Mark(hs[o].node, p + [o], r) { MarkBelow(hs[o].node, p + [o], r); }
      }
  }

  /** Below a child, a mark of a branch stays exactly if it does in the child. */
  lemma StaysInChild(hs: map<Byte, Hash>, p: Key, len: nat, b: Byte, r: Key)
    requires Open(Branch(hs), p, len) && b in hs && p + [b] <= r
    ensures Stays(Keys(Branch(hs)), p, r) ==> Stays(Keys(hs[b].node), p + [b], r)
  {
    ForksInChild(hs, p, len, b, r);
    if r != p + [b] {
      assert p + [b] <= Parent(r);
      ForksInChild(hs, p, len, b, Parent(r));
    }
  }

  /** The marks of the child that takes its branch's place: its topmost one goes. */
  lemma LengthenMarks(o: Byte, orphan: Node, p: Key, len: nat, r: Key)
    requires WellFormed(orphan, p + [o], len)
    ensures Mark(Lengthen(o, orphan), p, r) <==> Mark(orphan, p + [o], r) && r != p + [o]
    ensures Stays(Keys(Lengthen(o, orphan)), p, r) ==> r != p + [o]
  {
    LengthenMeans(o, orphan, p, len);
    assert Keys(Lengthen(o, orphan)) == Keys(orphan);
    WellFormedIsOpen(orphan, p + [o], len);
    KeysBelow(orphan, p + [o], len);
    if Mark(Lengthen(o, orphan), p, r) { MarkBelow(Lengthen(o, orphan), p, r); }
    if r == p + [o] && Stays(Keys(orphan), p, r) {
      assert Parent(r) == p;
      ForksAreBelow(Keys(orphan), p + [o], p);
    }
    match orphan
    case Extension(q, c) =>
      assert p + ([o] + q) == p + [o] + q;
      if Mark(c.node, p + [o] + q, r) { MarkBelow(c.node, p + [o] + q, r); }
    case Leaf(_, _) =>
    case Branch(_) =>
      if Mark(orphan, p + [o], r) { MarkBelow(orphan, p + [o], r); }
  }

  /** The keys fork at a position and right above it; the root counts as a fork. */
  ghost predicate BothFork(ks: set<Key>, r: Key) {
    r != [] && Forks(ks, r) && (|r| == 1 || Forks(ks, Parent(r)))
  }

  /** At the root, which stays however few children it has. */
  lemma DeleteRootMarks(root: Node, key: Key, r: Key)
    requires IsRoot(root, |key|) && DeleteRoot(root, key).Kept?
    ensures var d := DeleteRoot(root, key).node;
            Mark(d, [], r) <==> Mark(root, [], r) && BothFork(Keys(d), r)
  {
    hide WellFormed, Keys;
    var hs, k := root.hashes, key[0];
    var d := DeleteRoot(root, key).node;
    RootAt(root, key);
    BranchStep(hs, key, 0);
    DeleteRootMeans(root, key);
    DeleteMeans(hs[k].node, key, 1);
    if Mark(d, [], r) { MarkInBranch(d.hashes, [], |key|, r); }
    match Deleted(hs[k].node, key, 1)
    case Kept(c) =>
      DeleteMarks(hs[k].node, key, 1, r);
      assert key[..1] == [] + [k];
      if |r| > 0 && r[0] == k { StaysUnderRoot(d.hashes, |key|, k, r); }
    case Emptied =>
  }

  lemma StaysUnderRoot(hs: map<Byte, Hash>, len: nat, b: Byte, r: Key)
    requires IsRoot(Branch(hs), len) && b in hs && |r| > 0 && r[0] == b
    ensures BothFork(Keys(Branch(hs)), r) ==> Stays(Keys(hs[b].node), [] + [b], r)
  {
    ForksInChild(hs, [], len, b, r);
    if |r| > 1 { ForksInChild(hs, [], len, b, Parent(r)); }
  }

  // ---- whole histories, on maps alone

  ghost function Marks(root: Node): iset<Key> {
    iset r | Mark(root, [], r)
  }

  /** What an operation does to the marks, told from the keys before it. */
  ghost function StepMarks(m: map<Key, Value>, marks: iset<Key>, len: nat, op: Op): iset<Key> {
    if |op.key| != len then marks
    else match op
      case UpsertOp(k, _) => marks + iset r | Opened(m.Keys, k, r) && |r| > 1
      case DeleteOp(k) => if k in m then iset r | r in marks && BothFork(m.Keys - {k}, r) else marks
  }

  ghost function RunMarks(len: nat, ops: seq<Op>): iset<Key> {
    if ops == [] then iset{}
    else
      var most := ops[..|ops| - 1];
      StepMarks(RunMap(len, most), RunMarks(len, most), len, ops[|ops| - 1])
  }

  lemma StepIsTheMarks(root: Node, len: nat, op: Op)
    requires IsRoot(root, len)
    ensures Marks(Step(root, len, op)) == StepMarks(Contents(root), Marks(root), len, op)
  {
    hide Mark, BothFork, Opened, IsRoot, DeleteRoot, UpsertRoot, Contents, Keys;
    KeysOfContents(root);
    if |op.key| == len {
      match op
      case UpsertOp(k, v) =>
        forall r ensures Mark(UpsertRoot(root, k, v), [], r) <==>
                         Mark(root, [], r) || (Opened(Contents(root).Keys, k, r) && |r| > 1)
        {
          UpsertRootMarks(root, k, v, r);
        }
      case DeleteOp(k) =>
        DeleteIsRemove(root, k);
        if k in Contents(root) {
          var d := DeleteRoot(root, k).node;
          KeysOfContents(d);
          forall r ensures Mark(d, [], r) <==> Mark(root, [], r) && BothFork(Contents(root).Keys - {k}, r) {
            DeleteRootMarks(root, k, r);
          }
        }
    }
  }

  lemma KeysOfContents(n: Node)
    ensures Keys(n) == Contents(n).Keys
  {
  }

  lemma UpsertRootMarks(root: Node, key: Key, value: Value, r: Key)
    requires IsRoot(root, |key|)
    ensures Mark(UpsertRoot(root, key, value), [], r) <==> Mark(root, [], r) || (Opened(Keys(root), key, r) && |r| > 1)
  {
    RootAt(root, key);
    assert key[..0] == [] && root == Branch(root.hashes);
    UpsertBranchMarks(root.hashes, key, 0, value, r);
  }

  /** After every history the marks are those that the same history of maps leaves. */
  lemma {:induction false} RunIsTheMarks(len: nat, ops: seq<Op>)
    requires len > 0
    ensures Marks(Run(len, ops)) == RunMarks(len, ops)
  {
    if ops == [] {
      assert forall r :: !Mark(EMPTY_ROOT, [], r);
    } else {
      var most := ops[..|ops| - 1];
      RunIsTheMarks(len, most);
      RunIsTheMap(len, most);
      StepIsTheMarks(Run(len, most), len, ops[|ops| - 1]);
    }
  }

  /** Two histories end with one root hash exactly if their maps end alike and their marks, told from the maps, too. */
  lemma SameHashIff(len: nat, ops: seq<Op>, others: seq<Op>)
    requires len > 0
    ensures HashOf(Run(len, ops)) == HashOf(Run(len, others)) <==>
            RunMap(len, ops) == RunMap(len, others) && RunMarks(len, ops) == RunMarks(len, others)
  {
    var m, n := Run(len, ops), Run(len, others);
    RunIsTheMap(len, ops);
    RunIsTheMap(len, others);
    RunIsTheMarks(len, ops);
    RunIsTheMarks(len, others);
    SameRootIff(m, n, len);
    MarksAgree(m, n);
  }

  lemma MarksAgree(m: Node, n: Node)
    ensures Marks(m) == Marks(n) <==> SameMarks(m, n, [])
  {
    assert forall r :: r in Marks(m) <==> Mark(m, [], r);
    assert forall r :: r in Marks(n) <==> Mark(n, [], r);
  }

  /** Taking a new key back gives the very root there was before it came. */
  lemma DeleteUndoesUpsert(root: Node, key: Key, value: Value)
    requires IsRoot(root, |key|) && key !in Contents(root)
    ensures IsRoot(UpsertRoot(root, key, value), |key|)
    ensures DeleteRoot(UpsertRoot(root, key, value), key) == Deletion.Kept(root)
  {
    hide Mark, Opened, BothFork, IsRoot, UpsertRoot, DeleteRoot, Contents, Keys;
    var more := UpsertRoot(root, key, value);
    UpsertIsUpdate(root, key, value);
    DeleteIsRemove(more, key);
    var back := DeleteRoot(more, key).node;
    assert Contents(root)[key := value] - {key} == Contents(root);
    KeysOfContents(back);
    KeysOfContents(root);
    forall r ensures Mark(back, [], r) <==> Mark(root, [], r) {
      UpsertRootMarks(root, key, value, r);
      DeleteRootMarks(more, key, r);
      if Mark(root, [], r) { MarksFork(root, |key|, r); }
      if Opened(Keys(root), key, r) && |r| > 1 { OpenedIsGone(Keys(root), key, r); }
    }
    SameRootIff(back, root, |key|);
  }

  lemma MarksFork(root: Node, len: nat, r: Key)
    requires IsRoot(root, len) && Mark(root, [], r)
    ensures BothFork(Keys(root), r)
  {
    assert root == Branch(root.hashes);
    MarkInBranch(root.hashes, [], len, r);
  }

  lemma OpenedIsGone(ks: set<Key>, key: Key, r: Key)
    requires Opened(ks, key, r) && |r| > 1
    ensures !BothFork(ks, r)
  {
  }
}
