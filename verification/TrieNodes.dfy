/**
The nodes of the Merkle Patricia trie (db/trie), the reference reading of a
node as a finite set of key/value entries, and the shape every stored node has.

A node hash is a free constructor over the node it was computed from, so two
nodes have the same hash exactly when they are the same node.
*/
module TrieNodes {
  import opened ByteStrings

  type Key = seq<Byte>
  type Value = seq<Byte>

  datatype Node =
    | Leaf(key: Key, value: Value)
    | Extension(path: Key, child: Hash)
    | Branch(hashes: map<Byte, Hash>)

  datatype Hash = HashOf(node: Node)

  const EMPTY_ROOT := Branch(map[])

  /** An entry is one stored (key, value) pair. */
  type Entry = (Key, Value)

  /** The entries below a node: what the node means. */
  ghost function Entries(n: Node): set<Entry> {
    match n
    case Leaf(k, v) => {(k, v)}
    case Extension(_, c) => Entries(c.node)
    case Branch(hs) => set b, e | b in hs.Keys && e in Entries(hs[b].node) :: e
  }

  /** The hashes of a node and of everything below it. */
  ghost function Reach(n: Node): set<Hash> {
    {HashOf(n)} + BelowReach(n)
  }

  /** The hashes strictly below a node. */
  ghost function BelowReach(n: Node): set<Hash> {
    match n
    case Leaf(_, _) => {}
    case Extension(_, c) => {c} + BelowReach(c.node)
    case Branch(hs) => set b, h | b in hs.Keys && h in {hs[b]} + BelowReach(hs[b].node) :: h
  }

  /**
  A node that may stand at position `p`, the key bytes consumed above it, in a
  trie of keys of length `len`: leaves carry the full key, an extension points
  to a branch, a branch has at least two children.
  */
  ghost predicate WellFormed(n: Node, p: Key, len: nat)
    decreases n
  {
    match n
    case Leaf(k, _) => |k| == len && p <= k
    case Extension(q, c) => c.node.Branch? && |p| + |q| < len && WellFormed(c.node, p + q, len)
    case Branch(hs) => |hs| >= 2 && |p| < len && forall b <- hs :: WellFormed(hs[b].node, p + [b], len)
  }

  /** As WellFormed, but a branch may have any number of children: the root is such a branch. */
  ghost predicate Open(n: Node, p: Key, len: nat) {
    if n.Branch? then |p| < len && forall b <- n.hashes :: WellFormed(n.hashes[b].node, p + [b], len)
    else WellFormed(n, p, len)
  }

  lemma WellFormedIsOpen(n: Node, p: Key, len: nat)
    requires WellFormed(n, p, len)
    ensures Open(n, p, len)
  {
  }

  ghost predicate IsRoot(n: Node, len: nat) {
    n.Branch? && Open(n, [], len)
  }

  // ---- every entry below a node has the node's position as a prefix of its key

  lemma {:induction false} EntriesHavePrefix(n: Node, p: Key, len: nat, e: Entry)
    requires Open(n, p, len) && e in Entries(n)
    ensures |e.0| == len && p <= e.0
    decreases n
  {
    match n
    case Leaf(_, _) =>
    case Extension(q, c) =>
      WellFormedIsOpen(c.node, p + q, len);
      EntriesHavePrefix(c.node, p + q, len, e);
      assert p <= p + q;
    case Branch(hs) =>
      var b :| b in hs && e in Entries(hs[b].node);
      WellFormedIsOpen(hs[b].node, p + [b], len);
      EntriesHavePrefix(hs[b].node, p + [b], len, e);
      assert p <= p + [b];
  }

  /** The child of a branch that holds an entry is the one at the entry's byte. */
  lemma {:induction false} EntryByte(hs: map<Byte, Hash>, p: Key, len: nat, b: Byte, e: Entry)
    requires Open(Branch(hs), p, len) && b in hs && e in Entries(hs[b].node)
    ensures |e.0| == len > |p| && e.0[|p|] == b && p <= e.0
  {
    WellFormedIsOpen(hs[b].node, p + [b], len);
    EntriesHavePrefix(hs[b].node, p + [b], len, e);
    assert (p + [b])[|p|] == b;
    assert p <= p + [b];
  }

  lemma {:induction false} SomeEntry(n: Node, p: Key, len: nat) returns (e: Entry)
    requires WellFormed(n, p, len)
    ensures e in Entries(n)
    decreases n
  {
    match n
    case Leaf(k, v) =>
      e := (k, v);
    case Extension(q, c) =>
      e := SomeEntry(c.node, p + q, len);
    case Branch(hs) =>
      assert hs.Keys != {};
      var b :| b in hs;
      e := SomeEntry(hs[b].node, p + [b], len);
  }

  /** A set with two or more members has one that differs from a given value. */
  lemma AnotherByte(s: set<Byte>, b: Byte) returns (a: Byte)
    requires |s| >= 2
    ensures a in s && a != b
  {
    assert |s - {b}| + |s * {b}| == |s| && s * {b} <= {b};
    assert |s * {b}| <= 1;
    a :| a in s - {b};
  }

  /** A well-formed branch holds two entries that part exactly at its position. */
  lemma {:induction false} TwoEntries(hs: map<Byte, Hash>, p: Key, len: nat) returns (e: Entry, f: Entry)
    requires WellFormed(Branch(hs), p, len)
    ensures e in Entries(Branch(hs)) && f in Entries(Branch(hs))
    ensures |e.0| == |f.0| == len > |p| && e.0[|p|] != f.0[|p|]
  {
    assert |hs.Keys| >= 2;
    var a :| a in hs;
    var b := AnotherByte(hs.Keys, a);
    e := SomeEntry(hs[a].node, p + [a], len);
    f := SomeEntry(hs[b].node, p + [b], len);
    EntryByte(hs, p, len, a, e);
    EntryByte(hs, p, len, b, f);
  }

  // ---- what is reachable below a node

  lemma {:induction false} BelowIsSmaller(n: Node, h: Hash)
    requires h in BelowReach(n)
    ensures h.node < n
    decreases n
  {
    match n
    case Leaf(_, _) =>
    case Extension(_, c) =>
      if h != c { BelowIsSmaller(c.node, h); }
    case Branch(hs) =>
      var b :| b in hs && h in {hs[b]} + BelowReach(hs[b].node);
      if h != hs[b] { BelowIsSmaller(hs[b].node, h); }
  }

  lemma {:induction false} NotBelowItself(n: Node)
    ensures HashOf(n) !in BelowReach(n)
  {
    if HashOf(n) in BelowReach(n) {
      BelowIsSmaller(n, HashOf(n));
    }
  }

  /** Everything below a node is itself well formed at a longer position and holds some of its entries. */
  lemma {:induction false} BelowIsWellFormed(n: Node, p: Key, len: nat, h: Hash) returns (q: Key)
    requires Open(n, p, len) && h in BelowReach(n)
    ensures p <= q && WellFormed(h.node, q, len)
    ensures Entries(h.node) <= Entries(n)
    ensures n.Branch? ==> |p| < |q|
    decreases n
  {
    match n
    case Leaf(_, _) => q := p;
    case Extension(r, c) =>
      q := p + r;
      WellFormedIsOpen(c.node, p + r, len);
      if h != c { q := BelowIsWellFormed(c.node, p + r, len, h); }
      assert p <= p + r;
    case Branch(hs) =>
      var b :| b in hs && h in {hs[b]} + BelowReach(hs[b].node);
      q := p + [b];
      WellFormedIsOpen(hs[b].node, p + [b], len);
      if h != hs[b] { q := BelowIsWellFormed(hs[b].node, p + [b], len, h); }
      assert p <= p + [b];
  }

  /** Subtrees at positions that part share no node. */
  lemma {:induction false} DisjointReach(m: Node, p: Key, n: Node, q: Key, len: nat)
    requires WellFormed(m, p, len) && WellFormed(n, q, len)
    requires !(p <= q) && !(q <= p)
    ensures Reach(m) !! Reach(n)
  {
    forall h | h in Reach(m) && h in Reach(n)
      ensures false
    {
      WellFormedIsOpen(m, p, len);
      WellFormedIsOpen(n, q, len);
      var r := p;
      if h != HashOf(m) { r := BelowIsWellFormed(m, p, len, h); }
      var s := q;
      if h != HashOf(n) { s := BelowIsWellFormed(n, q, len, h); }
      var e := SomeEntry(h.node, r, len);
      EntriesHavePrefix(m, p, len, e);
      EntriesHavePrefix(n, q, len, e);
      PrefixesOfOne(p, q, e.0);
    }
  }

  lemma PrefixesOfOne(p: Key, q: Key, k: Key)
    requires p <= k && q <= k
    ensures p <= q || q <= p
  {
    if |p| <= |q| {
      assert p == k[..|p|] == q[..|p|];
    } else {
      assert q == k[..|q|] == p[..|q|];
    }
  }

  /** A shared prefix ends no later than where two keys part. */
  lemma SharedPrefix(p: Key, a: Key, b: Key, d: nat)
    requires p <= a && p <= b && d < |a| && d < |b| && a[d] != b[d]
    ensures |p| <= d
  {
  }

  /** Two children of one branch share no node. */
  lemma {:induction false} SiblingsDisjoint(hs: map<Byte, Hash>, p: Key, len: nat, a: Byte, b: Byte)
    requires Open(Branch(hs), p, len) && a in hs && b in hs && a != b
    ensures Reach(hs[a].node) !! Reach(hs[b].node)
  {
    assert (p + [a])[|p|] == a && (p + [b])[|p|] == b;
    DisjointReach(hs[a].node, p + [a], hs[b].node, p + [b], len);
  }
}
