/**
The three node operations of the trie (search, upsert, delete), as functions on
nodes, and what they mean for the entries below the node.
*/
module TrieOps {
  import opened Options
  import opened ByteStrings
  import opened TrieNodes

  /** The length of the longest common prefix (db/trie/trienode.go). */
  function CommonPrefix(a: Key, b: Key): (m: nat)
    ensures m <= |a| && m <= |b|
    ensures a[..m] == b[..m]
    ensures m < |a| && m < |b| ==> a[m] != b[m]
  {
    if a == [] || b == [] || a[0] != b[0] then 0 else 1 + CommonPrefix(a[1..], b[1..])
  }

  /** A node that may stand at byte `offset` of the way to `key`. */
  ghost predicate At(n: Node, key: Key, offset: nat) {
    offset <= |key| && WellFormed(n, key[..offset], |key|)
  }

  ghost predicate OpenAt(n: Node, key: Key, offset: nat) {
    offset <= |key| && Open(n, key[..offset], |key|)
  }

  lemma AtIsOpen(n: Node, key: Key, offset: nat)
    requires At(n, key, offset)
    ensures OpenAt(n, key, offset)
  {
    WellFormedIsOpen(n, key[..offset], |key|);
  }

  // What it takes for each kind of node to be well formed.

  lemma LeafShape(k: Key, v: Value, p: Key, len: nat)
    ensures WellFormed(Leaf(k, v), p, len) <==> |k| == len && p <= k
  {
  }

  lemma ExtensionShape(path: Key, c: Hash, p: Key, len: nat)
    ensures WellFormed(Extension(path, c), p, len) <==>
            c.node.Branch? && |p| + |path| < len && WellFormed(c.node, p + path, len)
  {
  }

  lemma BranchShape(hs: map<Byte, Hash>, p: Key, len: nat)
    ensures WellFormed(Branch(hs), p, len) <==> |hs| >= 2 && Open(Branch(hs), p, len)
  {
  }

  // ---- steps of the way from a node to its child

  lemma BranchStep(hs: map<Byte, Hash>, key: Key, offset: nat)
    requires OpenAt(Branch(hs), key, offset)
    ensures offset < |key| && key[..offset] + [key[offset]] == key[..offset + 1]
    ensures key[offset] in hs ==>
              At(hs[key[offset]].node, key, offset + 1) && OpenAt(hs[key[offset]].node, key, offset + 1)
  {
    assert key[..offset] + [key[offset]] == key[..offset + 1];
    if key[offset] in hs { WellFormedIsOpen(hs[key[offset]].node, key[..offset + 1], |key|); }
  }

  lemma ExtensionStep(path: Key, child: Hash, key: Key, offset: nat)
    requires OpenAt(Extension(path, child), key, offset)
    ensures child.node.Branch? && offset + |path| < |key|
    ensures path <= key[offset..] ==>
              At(child.node, key, offset + |path|) && OpenAt(child.node, key, offset + |path|)
  {
    if path <= key[offset..] {
      assert key[..offset] + path == key[..offset + |path|];
      WellFormedIsOpen(child.node, key[..offset + |path|], |key|);
    }
  }

  // ---- search

  function Search(n: Node, key: Key, offset: nat): Option<Node>
    requires OpenAt(n, key, offset)
    decreases n
  {
    match n
    case Leaf(k, _) =>
      if k[offset..] == key[offset..] then Some(n) else None
    case Extension(path, c) =>
      ExtensionStep(path, c, key, offset);
      var m := CommonPrefix(path, key[offset..]);
      if m != |path| then None else Search(c.node, key, offset + m)
    case Branch(hs) =>
      BranchStep(hs, key, offset);
      if key[offset] !in hs then None else Search(hs[key[offset]].node, key, offset + 1)
  }

  lemma LeafKey(k: Key, key: Key, offset: nat)
    requires offset <= |key| && |k| == |key| && key[..offset] <= k
    ensures k[offset..] == key[offset..] <==> k == key
  {
    assert k == k[..offset] + k[offset..] && key == key[..offset] + key[offset..];
  }

  ghost predicate HasKey(s: set<Entry>, key: Key) {
    exists e :: e in s && e.0 == key
  }

  /** An extension whose path leaves the key has no entry for the key. */
  lemma OffPath(path: Key, c: Hash, key: Key, offset: nat)
    requires OpenAt(Extension(path, c), key, offset)
    requires CommonPrefix(path, key[offset..]) != |path|
    ensures !HasKey(Entries(Extension(path, c)), key)
  {
    forall e | e in Entries(c.node)
      ensures e.0 != key
    {
      ExtensionStep(path, c, key, offset);
      WellFormedIsOpen(c.node, key[..offset] + path, |key|);
      EntriesHavePrefix(c.node, key[..offset] + path, |key|, e);
      var m := CommonPrefix(path, key[offset..]);
      assert e.0[offset + m] == (key[..offset] + path)[offset + m] == path[m];
      assert key[offset..][m] == key[offset + m];
    }
  }

  /** In a branch, an entry for the key sits below the key's byte and nowhere else. */
  lemma OnlyBelowByte(hs: map<Byte, Hash>, key: Key, offset: nat)
    requires OpenAt(Branch(hs), key, offset)
    ensures offset < |key|
    ensures forall b, e :: b in hs && e in Entries(hs[b].node) && e.0 == key ==> b == key[offset]
  {
    forall b, e | b in hs && e in Entries(hs[b].node) && e.0 == key
      ensures b == key[offset]
    {
      EntryByte(hs, key[..offset], |key|, b, e);
    }
  }

  lemma KeyInBranch(hs: map<Byte, Hash>, key: Key, offset: nat)
    requires OpenAt(Branch(hs), key, offset)
    ensures offset < |key|
    ensures HasKey(Entries(Branch(hs)), key) <==> key[offset] in hs && HasKey(Entries(hs[key[offset]].node), key)
  {
    OnlyBelowByte(hs, key, offset);
    if key[offset] in hs && HasKey(Entries(hs[key[offset]].node), key) {
      var e :| e in Entries(hs[key[offset]].node) && e.0 == key;
      assert e in Entries(Branch(hs));
    }
  }

  /** Search finds the leaf of the key if and only if the key has an entry. */
  lemma {:induction false} SearchFinds(n: Node, key: Key, offset: nat)
    requires OpenAt(n, key, offset)
    ensures Search(n, key, offset).None? <==> !HasKey(Entries(n), key)
    ensures Search(n, key, offset).Some? ==>
              var l := Search(n, key, offset).value;
              l.Leaf? && l.key == key && (key, l.value) in Entries(n)
    decreases n
  {
    hide WellFormed, Search;
    match n
    case Leaf(k, v) =>
      SearchLeaf(k, v, key, offset);
    case Extension(path, c) =>
      SearchInExtension(path, c, key, offset);
    case Branch(hs) =>
      SearchInBranch(hs, key, offset);
  }

  lemma SearchLeaf(k: Key, v: Value, key: Key, offset: nat)
    requires OpenAt(Leaf(k, v), key, offset)
    ensures Search(Leaf(k, v), key, offset) == if k == key then Some(Leaf(k, v)) else None
    ensures HasKey({(k, v)}, key) <==> k == key
  {
    LeafKey(k, key, offset);
    assert HasKey({(k, v)}, k) by { assert (k, v) in {(k, v)}; }
  }

  lemma {:induction false} SearchInExtension(path: Key, c: Hash, key: Key, offset: nat)
    requires OpenAt(Extension(path, c), key, offset)
    ensures var r := Search(Extension(path, c), key, offset);
            && (r.None? <==> !HasKey(Entries(c.node), key))
            && (r.Some? ==> r.value.Leaf? && r.value.key == key && (key, r.value.value) in Entries(c.node))
    decreases Extension(path, c), 0
  {
    hide WellFormed, Search;
    ExtensionStep(path, c, key, offset);
    var m := CommonPrefix(path, key[offset..]);
    SearchExtensionIs(path, c, key, offset, m);
    if m != |path| {
      OffPath(path, c, key, offset);
    } else {
      SearchFinds(c.node, key, offset + m);
    }
  }

  lemma {:induction false} SearchInBranch(hs: map<Byte, Hash>, key: Key, offset: nat)
    requires OpenAt(Branch(hs), key, offset)
    ensures var r := Search(Branch(hs), key, offset);
            && (r.None? <==> !HasKey(Entries(Branch(hs)), key))
            && (r.Some? ==> r.value.Leaf? && r.value.key == key && (key, r.value.value) in Entries(Branch(hs)))
    decreases Branch(hs), 0
  {
    hide WellFormed;
    BranchStep(hs, key, offset);
    KeyInBranch(hs, key, offset);
    if key[offset] in hs {
      SearchFinds(hs[key[offset]].node, key, offset + 1);
    }
  }

  // ---- upsert

  function Upserted(n: Node, key: Key, offset: nat, value: Value): Node
    requires OpenAt(n, key, offset)
    decreases n
  {
    match n
    case Leaf(k, _) =>
      var m := CommonPrefix(k[offset..], key[offset..]);
      if offset + m == |key| then Leaf(k, value)
      else Fork(k[offset..offset + m], k[offset + m], n, key[offset + m], Leaf(key, value))
    case Extension(path, c) =>
      ExtensionStep(path, c, key, offset);
      var m := CommonPrefix(path, key[offset..]);
      if m == |path| then Extension(path, HashOf(Upserted(c.node, key, offset + m, value)))
      else Fork(key[offset..offset + m], path[m], Extension(path[m + 1..], c), key[offset + m], Leaf(key, value))
    case Branch(hs) =>
      BranchStep(hs, key, offset);
      var k := key[offset];
      Branch(hs[k := HashOf(if k in hs then Upserted(hs[k].node, key, offset + 1, value) else Leaf(key, value))])
  }

  /** A two-way branch, under an extension when the two sides share some bytes. */
  function Fork(shared: Key, a: Byte, m: Node, b: Byte, n: Node): Node {
    var branch := Branch(map[a := HashOf(m), b := HashOf(n)]);
    if shared == [] then branch else Extension(shared, HashOf(branch))
  }

  ghost function Without(s: set<Entry>, key: Key): set<Entry> {
    set e | e in s && e.0 != key
  }

  lemma ForkMeans(shared: Key, a: Byte, m: Node, b: Byte, n: Node, p: Key, len: nat)
    requires a != b && |p| + |shared| < len
    requires WellFormed(m, p + shared + [a], len)
    requires WellFormed(n, p + shared + [b], len)
    ensures WellFormed(Fork(shared, a, m, b, n), p, len)
    ensures Entries(Fork(shared, a, m, b, n)) == Entries(m) + Entries(n)
  {
    hide WellFormed;
    var hs := map[a := HashOf(m), b := HashOf(n)];
    assert hs.Keys == {a, b};
    assert |hs| == 2;
    assert p + [] == p;
    BranchShape(hs, p + shared, len);
    ExtensionShape(shared, HashOf(Branch(hs)), p, len);
    assert a in hs && hs[a] == HashOf(m) && b in hs && hs[b] == HashOf(n);
    assert Entries(Branch(hs)) == Entries(m) + Entries(n);
  }

  // Where two keys, or a path and a key, part.

  lemma KeysPart(k: Key, key: Key, offset: nat)
    requires |k| == |key| && offset <= |key| && k[..offset] == key[..offset]
    ensures var m := offset + CommonPrefix(k[offset..], key[offset..]);
            if m == |key| then k == key
            else && k[m] != key[m] && k[offset..m] == key[offset..m]
                 && key[..offset] + k[offset..m] + [k[m]] <= k
                 && key[..offset] + k[offset..m] + [key[m]] <= key
  {
    var m := offset + CommonPrefix(k[offset..], key[offset..]);
    assert k[..m] == k[..offset] + k[offset..][..m - offset];
    assert key[..m] == key[..offset] + key[offset..][..m - offset];
    if m == |key| {
      assert k == k[..m] && key == key[..m];
    } else {
      assert k[offset..][m - offset] == k[m] && key[offset..][m - offset] == key[m];
      assert k[offset..m] == k[offset..][..m - offset];
      assert key[offset..m] == key[offset..][..m - offset];
      assert key[..offset] + k[offset..m] + [k[m]] == k[..m + 1];
      assert key[..offset] + k[offset..m] + [key[m]] == key[..m + 1];
    }
  }

  lemma PathParts(path: Key, key: Key, offset: nat)
    requires offset + |path| < |key| && CommonPrefix(path, key[offset..]) != |path|
    ensures var m := CommonPrefix(path, key[offset..]);
            var shared := key[offset..offset + m];
            && path[m] != key[offset + m]
            && (key[..offset] + shared + [path[m]]) + path[m + 1..] == key[..offset] + path
            && key[..offset] + shared + [key[offset + m]] <= key
  {
    var m := CommonPrefix(path, key[offset..]);
    var shared := key[offset..offset + m];
    assert key[offset..][m] == key[offset + m];
    assert path[..m] == key[offset..][..m] == shared;
    assert path == path[..m] + [path[m]] + path[m + 1..];
    assert key[..offset] + shared + [key[offset + m]] == key[..offset + m + 1];
  }

  lemma UpsertLeaf(k: Key, v: Value, key: Key, offset: nat, value: Value)
    requires At(Leaf(k, v), key, offset)
    ensures At(Upserted(Leaf(k, v), key, offset, value), key, offset)
    ensures Entries(Upserted(Leaf(k, v), key, offset, value)) == Without({(k, v)}, key) + {(key, value)}
  {
    hide WellFormed;
    AtIsOpen(Leaf(k, v), key, offset);
    LeafShape(k, v, key[..offset], |key|);
    assert k[..offset] == key[..offset];
    KeysPart(k, key, offset);
    var m := offset + CommonPrefix(k[offset..], key[offset..]);
    if m == |key| {
      LeafShape(k, value, key[..offset], |key|);
    } else {
      LeafShape(k, v, key[..offset] + k[offset..m] + [k[m]], |key|);
      LeafShape(key, value, key[..offset] + k[offset..m] + [key[m]], |key|);
      ForkMeans(k[offset..m], k[m], Leaf(k, v), key[m], Leaf(key, value), key[..offset], |key|);
    }
  }

  lemma UpsertSplit(path: Key, c: Hash, key: Key, offset: nat, value: Value)
    requires OpenAt(Extension(path, c), key, offset)
    requires CommonPrefix(path, key[offset..]) != |path|
    ensures At(Upserted(Extension(path, c), key, offset, value), key, offset)
    ensures Entries(Upserted(Extension(path, c), key, offset, value)) == Entries(c.node) + {(key, value)}
  {
    hide WellFormed;
    ExtensionStep(path, c, key, offset);
    PathParts(path, key, offset);
    var m := CommonPrefix(path, key[offset..]);
    ExtensionShape(path, c, key[..offset], |key|);
    ExtensionShape(path[m + 1..], c, key[..offset] + key[offset..offset + m] + [path[m]], |key|);
    LeafShape(key, value, key[..offset] + key[offset..offset + m] + [key[offset + m]], |key|);
    ForkMeans(key[offset..offset + m], path[m], Extension(path[m + 1..], c), key[offset + m], Leaf(key, value),
              key[..offset], |key|);
  }

  /** The entries of a branch after the child at one byte has been replaced. */
  lemma ReplaceChild(hs: map<Byte, Hash>, k: Byte, c: Node)
    ensures Entries(Branch(hs[k := HashOf(c)])) == Entries(Branch(hs - {k})) + Entries(c)
  {
    var to := hs[k := HashOf(c)];
    forall e | e in Entries(c) ensures e in Entries(Branch(to)) { assert k in to && e in Entries(to[k].node); }
    forall e | e in Entries(Branch(hs - {k})) ensures e in Entries(Branch(to)) {
      var b :| b in hs - {k} && e in Entries(hs[b].node);
      assert b in to && e in Entries(to[b].node);
    }
    forall e | e in Entries(Branch(to)) ensures e in Entries(Branch(hs - {k})) + Entries(c) {
      var b :| b in to && e in Entries(to[b].node);
      if b != k { assert b in hs - {k} && e in Entries((hs - {k})[b].node); }
    }
  }

  /** Leaving out the key from a branch: the other children keep all entries, the key's child loses it. */
  lemma WithoutInBranch(hs: map<Byte, Hash>, key: Key, offset: nat)
    requires OpenAt(Branch(hs), key, offset)
    ensures offset < |key|
    ensures Without(Entries(Branch(hs)), key) ==
            Entries(Branch(hs - {key[offset]})) +
            (if key[offset] in hs then Without(Entries(hs[key[offset]].node), key) else {})
  {
    OnlyBelowByte(hs, key, offset);
    var k := key[offset];
    var rest := Entries(Branch(hs - {k})) + (if k in hs then Without(Entries(hs[k].node), key) else {});
    forall e | e in Without(Entries(Branch(hs)), key) ensures e in rest {
      var b :| b in hs && e in Entries(hs[b].node);
      if b != k { assert b in hs - {k} && e in Entries((hs - {k})[b].node); }
    }
    forall e | e in Entries(Branch(hs - {k})) ensures e in Without(Entries(Branch(hs)), key) {
      var b :| b in hs - {k} && e in Entries(hs[b].node);
      assert b in hs && e in Entries(hs[b].node);
    }
    if k in hs {
      forall e | e in Entries(hs[k].node) ensures e in Entries(Branch(hs)) {
        assert k in hs && e in Entries(hs[k].node);
      }
    }
  }

  /** Replacing the child on the way to the key keeps the branch well formed. */
  lemma ReplaceWellFormed(hs: map<Byte, Hash>, p: Key, len: nat, k: Byte, c: Node)
    requires Open(Branch(hs), p, len) && WellFormed(c, p + [k], len)
    ensures Open(Branch(hs[k := HashOf(c)]), p, len)
    ensures WellFormed(Branch(hs), p, len) ==> WellFormed(Branch(hs[k := HashOf(c)]), p, len)
  {
    var to := hs[k := HashOf(c)];
    assert to.Keys == hs.Keys + {k};
    assert |to.Keys| >= |hs.Keys|;
  }

  /**
  Upsert keeps the shape and changes the entries as a map update does: the key's
  old entry goes, the new one comes, every other entry stays. A branch stays a
  branch.
  */
  lemma {:induction false} UpsertMeans(n: Node, key: Key, offset: nat, value: Value)
    requires OpenAt(n, key, offset)
    ensures OpenAt(Upserted(n, key, offset, value), key, offset)
    ensures At(n, key, offset) ==> At(Upserted(n, key, offset, value), key, offset)
    ensures n.Branch? ==> Upserted(n, key, offset, value).Branch?
    ensures Entries(Upserted(n, key, offset, value)) == Without(Entries(n), key) + {(key, value)}
    decreases n
  {
    hide WellFormed, Upserted;
    match n
    case Leaf(k, v) =>
      UpsertLeaf(k, v, key, offset, value);
      AtIsOpen(Upserted(n, key, offset, value), key, offset);
    case Extension(path, c) =>
      UpsertInExtension(path, c, key, offset, value);
    case Branch(hs) =>
      UpsertInBranch(hs, key, offset, value);
  }

  lemma {:induction false} UpsertInExtension(path: Key, c: Hash, key: Key, offset: nat, value: Value)
    requires OpenAt(Extension(path, c), key, offset)
    ensures var r := Upserted(Extension(path, c), key, offset, value);
            && OpenAt(r, key, offset) && (At(Extension(path, c), key, offset) ==> At(r, key, offset))
            && Entries(r) == Without(Entries(c.node), key) + {(key, value)}
    decreases Extension(path, c), 0
  {
    hide WellFormed, Upserted;
    var n := Extension(path, c);
    ExtensionStep(path, c, key, offset);
    var m := CommonPrefix(path, key[offset..]);
    UpsertExtensionIs(path, c, key, offset, value, m);
    if m == |path| {
      UpsertMeans(c.node, key, offset + m, value);
      assert key[..offset] + path == key[..offset + m];
      ExtensionShape(path, HashOf(Upserted(c.node, key, offset + m, value)), key[..offset], |key|);
    } else {
      UpsertSplit(path, c, key, offset, value);
      AtIsOpen(Upserted(n, key, offset, value), key, offset);
      OffPath(path, c, key, offset);
      assert Without(Entries(n), key) == Entries(n);
    }
  }

  lemma {:induction false} UpsertInBranch(hs: map<Byte, Hash>, key: Key, offset: nat, value: Value)
    requires OpenAt(Branch(hs), key, offset)
    ensures var r := Upserted(Branch(hs), key, offset, value);
            && r.Branch? && OpenAt(r, key, offset) && (At(Branch(hs), key, offset) ==> At(r, key, offset))
            && Entries(r) == Without(Entries(Branch(hs)), key) + {(key, value)}
    decreases Branch(hs), 0
  {
    hide WellFormed, Entries;
    BranchStep(hs, key, offset);
    var k := key[offset];
    var c := Leaf(key, value);
    if k in hs {
      c := Upserted(hs[k].node, key, offset + 1, value);
      UpsertMeans(hs[k].node, key, offset + 1, value);
    } else {
      NewLeaf(key, value, offset + 1);
    }
    assert Upserted(Branch(hs), key, offset, value) == Branch(hs[k := HashOf(c)]);
    ReplaceWellFormed(hs, key[..offset], |key|, k, c);
    ReplaceChild(hs, k, c);
    WithoutInBranch(hs, key, offset);
  }

  lemma NewLeaf(key: Key, value: Value, offset: nat)
    requires offset <= |key|
    ensures At(Leaf(key, value), key, offset) && Entries(Leaf(key, value)) == {(key, value)}
  {
  }

  // Upsert and Search, one node at a time.

  lemma UpsertExtensionIs(path: Key, c: Hash, key: Key, offset: nat, value: Value, m: nat)
    requires OpenAt(Extension(path, c), key, offset) && m == CommonPrefix(path, key[offset..])
    ensures offset + m < |key|
    ensures m == |path| ==>
              && OpenAt(c.node, key, offset + m)
              && Upserted(Extension(path, c), key, offset, value) ==
                 Extension(path, HashOf(Upserted(c.node, key, offset + m, value)))
    ensures m != |path| ==>
              Upserted(Extension(path, c), key, offset, value) ==
              Fork(key[offset..offset + m], path[m], Extension(path[m + 1..], c), key[offset + m], Leaf(key, value))
  {
    ExtensionStep(path, c, key, offset);
  }

  lemma SearchExtensionIs(path: Key, c: Hash, key: Key, offset: nat, m: nat)
    requires OpenAt(Extension(path, c), key, offset) && m == CommonPrefix(path, key[offset..])
    ensures m == |path| ==>
              && OpenAt(c.node, key, offset + m)
              && Search(Extension(path, c), key, offset) == Search(c.node, key, offset + m)
    ensures m != |path| ==> Search(Extension(path, c), key, offset) == None
  {
    ExtensionStep(path, c, key, offset);
  }

  // ---- delete

  /** What is left at a position: the key was not there, nothing is left, or a node is. */
  datatype Deletion = NotFound | Emptied | Kept(node: Node)

  ghost function Deleted(n: Node, key: Key, offset: nat): Deletion
    requires At(n, key, offset)
    decreases n
  {
    match n
    case Leaf(k, _) =>
      if k[offset..] != key[offset..] then NotFound else Emptied
    case Extension(path, c) =>
      ExtensionStep(path, c, key, offset);
      var m := CommonPrefix(path, key[offset..]);
      if m != |path| then NotFound
      else Shorten(path, Deleted(c.node, key, offset + m))
    case Branch(hs) =>
      BranchStep(hs, key, offset);
      var k := key[offset];
      if k !in hs then NotFound
      else Rejoin(hs, k, Deleted(hs[k].node, key, offset + 1))
  }

  /** A branch after its child under `k` changed: with one child left, that child takes its place. */
  ghost function Rejoin(hs: map<Byte, Hash>, k: Byte, child: Deletion): Deletion
    requires k in hs
  {
    match child
    case NotFound => NotFound
    case Kept(c) => Kept(Branch(hs[k := HashOf(c)]))
    case Emptied =>
      if |hs| == 2 then var o := Orphan(hs, k); Kept(Lengthen(o, hs[o].node))
      else Kept(Branch(hs - {k}))
  }

  lemma DeleteExtensionIs(path: Key, c: Hash, key: Key, offset: nat, m: nat)
    requires At(Extension(path, c), key, offset) && m == CommonPrefix(path, key[offset..])
    ensures m != |path| ==> Deleted(Extension(path, c), key, offset) == NotFound
    ensures m == |path| ==>
              && c.node.Branch? && offset + m < |key| && At(c.node, key, offset + m)
              && Deleted(Extension(path, c), key, offset) == Shorten(path, Deleted(c.node, key, offset + m))
  {
    AtIsOpen(Extension(path, c), key, offset);
    ExtensionStep(path, c, key, offset);
  }

  /** An extension after its child changed: it is merged into an extension, gives way to a leaf, keeps a branch. */
  function Shorten(path: Key, child: Deletion): Deletion {
    match child
    case NotFound => NotFound
    case Emptied => Emptied
    case Kept(Extension(q, c)) => Kept(Extension(path + q, c))
    case Kept(Leaf(k, v)) => Kept(Leaf(k, v))
    case Kept(Branch(hs)) => Kept(Extension(path, HashOf(Branch(hs))))
  }

  /** The last child of a branch takes the branch's place and swallows its byte. */
  function Lengthen(b: Byte, orphan: Node): Node {
    match orphan
    case Extension(q, c) => Extension([b] + q, c)
    case Leaf(_, _) => orphan
    case Branch(_) => Extension([b], HashOf(orphan))
  }

  /** The other child of a branch with two. */
  ghost function Orphan(hs: map<Byte, Hash>, k: Byte): (o: Byte)
    requires |hs| == 2 && k in hs
    ensures o in hs && o != k
  {
    assert |hs.Keys - {k}| == 1;
    var o :| o in hs.Keys - {k};
    o
  }

  lemma OrphanIs(hs: map<Byte, Hash>, k: Byte, o: Byte)
    requires |hs| == 2 && k in hs && o in hs && o != k
    ensures o == Orphan(hs, k) && hs.Keys == {k, o} && (hs - {k}).Keys == {o}
  {
    var others := hs.Keys - {k} - {o};
    assert |hs.Keys| == 2;
    assert |others| == 0;
    assert others == {};
    assert hs.Keys == {k, o};
  }

  lemma LengthenMeans(b: Byte, orphan: Node, p: Key, len: nat)
    requires WellFormed(orphan, p + [b], len)
    ensures WellFormed(Lengthen(b, orphan), p, len)
    ensures Entries(Lengthen(b, orphan)) == Entries(orphan)
  {
    match orphan
    case Extension(q, c) => assert p + ([b] + q) == p + [b] + q;
    case Leaf(_, _) => assert p <= p + [b];
    case Branch(_) =>
  }

  lemma ShortenMeans(path: Key, child: Deletion, p: Key, len: nat)
    requires child.Kept? && WellFormed(child.node, p + path, len)
    ensures Shorten(path, child).Kept?
    ensures WellFormed(Shorten(path, child).node, p, len)
    ensures Entries(Shorten(path, child).node) == Entries(child.node)
  {
    match child.node
    case Extension(q, c) => assert p + (path + q) == p + path + q;
    case Leaf(_, _) => assert p <= p + path;
    case Branch(_) =>
  }

  lemma DropChild(hs: map<Byte, Hash>, p: Key, len: nat, k: Byte)
    requires Open(Branch(hs), p, len) && k in hs
    ensures Open(Branch(hs - {k}), p, len)
    ensures |hs - {k}| == |hs| - 1
  {
    assert (hs - {k}).Keys == hs.Keys - {k};
  }

  /** A branch that lost the key's whole subtree, once per number of children left. */
  lemma DropMeans(hs: map<Byte, Hash>, key: Key, offset: nat)
    requires At(Branch(hs), key, offset) && offset < |key| && key[offset] in hs
    requires At(hs[key[offset]].node, key, offset + 1)
    requires Deleted(hs[key[offset]].node, key, offset + 1).Emptied?
    ensures var r := Deleted(Branch(hs), key, offset);
            r.Kept? && At(r.node, key, offset) && Entries(r.node) == Entries(Branch(hs - {key[offset]}))
  {
    hide WellFormed;
    var k := key[offset];
    var p := key[..offset];
    BranchShape(hs, p, |key|);
    DropChild(hs, p, |key|, k);
    BranchShape(hs - {k}, p, |key|);
    if |hs| == 2 {
      var o := Orphan(hs, k);
      OrphanIs(hs, k, o);
      LengthenMeans(o, hs[o].node, p, |key|);
      assert Entries(Branch(hs - {k})) == Entries(hs[o].node) by {
        assert o in hs - {k};
      }
    }
  }

  /**
  Delete reports a missing key if and only if the key has no entry; otherwise it
  takes out exactly the key's entry, keeps the shape, and leaves nothing only
  when the key was the sole entry, which never happens to a branch.
  */
  lemma DeleteLeaf(k: Key, v: Value, key: Key, offset: nat)
    requires At(Leaf(k, v), key, offset)
    ensures var r := Deleted(Leaf(k, v), key, offset);
            && (r.NotFound? <==> !HasKey({(k, v)}, key)) && !r.Kept?
            && (r.Emptied? ==> Without({(k, v)}, key) == {})
  {
    LeafKey(k, key, offset);
    assert HasKey({(k, v)}, k) by { assert (k, v) in {(k, v)}; }
  }

  lemma {:induction false} DeleteMeans(n: Node, key: Key, offset: nat)
    requires At(n, key, offset)
    ensures var r := Deleted(n, key, offset);
            && (r.NotFound? <==> !HasKey(Entries(n), key))
            && (r.Emptied? ==> Without(Entries(n), key) == {} && n.Leaf?)
            && (r.Kept? ==> At(r.node, key, offset) && Entries(r.node) == Without(Entries(n), key))
    decreases n
  {
    AtIsOpen(n, key, offset);
    hide WellFormed, Deleted;
    match n
    case Leaf(k, v) =>
      DeleteLeaf(k, v, key, offset);
    case Extension(path, c) =>
      DeleteInExtension(path, c, key, offset);
    case Branch(hs) =>
      DeleteInBranch(hs, key, offset);
  }

  lemma {:induction false} DeleteInExtension(path: Key, c: Hash, key: Key, offset: nat)
    requires At(Extension(path, c), key, offset)
    ensures var r := Deleted(Extension(path, c), key, offset);
            && (r.NotFound? <==> !HasKey(Entries(c.node), key))
            && !r.Emptied?
            && (r.Kept? ==> At(r.node, key, offset) && Entries(r.node) == Without(Entries(c.node), key))
    decreases Extension(path, c), 0
  {
    hide WellFormed, Deleted;
    AtIsOpen(Extension(path, c), key, offset);
    ExtensionStep(path, c, key, offset);
    var m := CommonPrefix(path, key[offset..]);
    DeleteExtensionIs(path, c, key, offset, m);
    if m != |path| {
      OffPath(path, c, key, offset);
    } else {
      DeleteMeans(c.node, key, offset + m);
      var r := Deleted(c.node, key, offset + m);
      assert key[..offset] + path == key[..offset + m];
      if r.Kept? { ShortenMeans(path, r, key[..offset], |key|); }
    }
  }

  lemma {:induction false} DeleteInBranch(hs: map<Byte, Hash>, key: Key, offset: nat)
    requires At(Branch(hs), key, offset)
    ensures var n := Branch(hs);
            var r := Deleted(n, key, offset);
            && (r.NotFound? <==> !HasKey(Entries(n), key))
            && !r.Emptied?
            && (r.Kept? ==> At(r.node, key, offset) && Entries(r.node) == Without(Entries(n), key))
    decreases Branch(hs), 0
  {
    hide WellFormed, Entries;
    AtIsOpen(Branch(hs), key, offset);
    BranchStep(hs, key, offset);
    KeyInBranch(hs, key, offset);
    WithoutInBranch(hs, key, offset);
    var k := key[offset];
    if k in hs {
      DeleteMeans(hs[k].node, key, offset + 1);
      match Deleted(hs[k].node, key, offset + 1)
      case NotFound =>
      case Kept(c) =>
        ReplaceWellFormed(hs, key[..offset], |key|, k, c);
        ReplaceChild(hs, k, c);
      case Emptied =>
        DropMeans(hs, key, offset);
    }
  }

  // ---- the root

  /** A root without a child under the key's first byte, or with a changed one. */
  ghost function DeleteRoot(root: Node, key: Key): Deletion
    requires IsRoot(root, |key|)
  {
    var k := key[0];
    BranchStep(root.hashes, key, 0);
    if k !in root.hashes then NotFound
    else match Deleted(root.hashes[k].node, key, 1)
      case NotFound => NotFound
      case Kept(c) => Kept(Branch(root.hashes[k := HashOf(c)]))
      case Emptied => Kept(Branch(root.hashes - {k}))
  }

  lemma RootAt(root: Node, key: Key)
    ensures root.Branch? ==> (IsRoot(root, |key|) <==> OpenAt(root, key, 0))
  {
    assert key[..0] == [];
  }

  /** Deleting at the root: found if and only if stored, then exactly that entry goes and a root is left. */
  lemma DeleteRootMeans(root: Node, key: Key)
    requires IsRoot(root, |key|)
    ensures var r := DeleteRoot(root, key);
            && (r.NotFound? <==> !HasKey(Entries(root), key))
            && (!r.NotFound? ==> r.Kept? && IsRoot(r.node, |key|) && Entries(r.node) == Without(Entries(root), key))
  {
    hide WellFormed, Entries;
    var hs := root.hashes;
    RootAt(root, key);
    BranchStep(hs, key, 0);
    KeyInBranch(hs, key, 0);
    WithoutInBranch(hs, key, 0);
    var k := key[0];
    if k in hs {
      DeleteMeans(hs[k].node, key, 1);
      match Deleted(hs[k].node, key, 1)
      case NotFound =>
      case Kept(c) =>
        ReplaceWellFormed(hs, key[..0], |key|, k, c);
        ReplaceChild(hs, k, c);
        RootAt(Branch(hs[k := HashOf(c)]), key);
      case Emptied =>
        DropChild(hs, key[..0], |key|, k);
        RootAt(Branch(hs - {k}), key);
    }
  }
}
