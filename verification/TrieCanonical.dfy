/**
The shape of a trie is a function of the map it stores, up to extensions with
an empty path: these are left behind when an extension is split right after
its first differing byte, so the root hash itself depends on the history.
*/
module TrieCanonical {
  import opened ByteStrings
  import opened TrieNodes
  import opened TrieOps

  /** The trie with its empty-path extensions taken out. */
  ghost function Erase(n: Node): Node {
    match n
    case Leaf(_, _) => n
    case Extension(path, c) => Under(path, Erase(c.node))
    case Branch(hs) => Branch(map b | b in hs :: HashOf(Erase(hs[b].node)))
  }

  ghost function Under(path: Key, n: Node): Node {
    if path == [] then n else Extension(path, HashOf(n))
  }

  /** Erasing changes no entry. */
  lemma {:induction false} EraseKeepsEntries(n: Node)
    ensures Entries(Erase(n)) == Entries(n)
    decreases n
  {
    match n
    case Leaf(_, _) =>
    case Extension(_, c) => EraseKeepsEntries(c.node);
    case Branch(hs) =>
      var to := map b | b in hs :: HashOf(Erase(hs[b].node));
      forall b | b in hs
        ensures Entries(to[b].node) == Entries(hs[b].node)
      {
        EraseKeepsEntries(hs[b].node);
      }
      assert to.Keys == hs.Keys;
      assert Entries(Branch(to)) == Entries(Branch(hs));
  }

  /** Two branches with the same entries, at positions on one key, are at the same position. */
  lemma ForkPoint(g: map<Byte, Hash>, p: Key, h: map<Byte, Hash>, q: Key, len: nat)
    requires WellFormed(Branch(g), p, len) && WellFormed(Branch(h), q, len)
    requires Entries(Branch(g)) == Entries(Branch(h))
    ensures p == q
  {
    var e, f := TwoEntries(g, p, len);
    var d, c := TwoEntries(h, q, len);
    hide WellFormed, Entries;
    PrefixOfAll(Branch(g), p, len, e, f);
    PrefixOfAll(Branch(h), q, len, e, f);
    PrefixOfAll(Branch(g), p, len, d, c);
    PrefixOfAll(Branch(h), q, len, d, c);
    SharedPrefix(q, e.0, f.0, |p|);
    SharedPrefix(p, d.0, c.0, |q|);
    assert p == e.0[..|p|] && q == e.0[..|q|];
  }

  lemma PrefixOfAll(n: Node, p: Key, len: nat, e: Entry, f: Entry)
    requires WellFormed(n, p, len) && e in Entries(n) && f in Entries(n)
    ensures p <= e.0 && p <= f.0
  {
    WellFormedIsOpen(n, p, len);
    EntriesHavePrefix(n, p, len, e);
    EntriesHavePrefix(n, p, len, f);
  }

  /** The entries below one child are the branch's entries with that byte. */
  lemma ChildEntries(hs: map<Byte, Hash>, p: Key, len: nat, b: Byte)
    requires Open(Branch(hs), p, len)
    ensures forall e :: e in Entries(Branch(hs)) ==> |e.0| > |p|
    ensures (set e | e in Entries(Branch(hs)) && e.0[|p|] == b) == (if b in hs then Entries(hs[b].node) else {})
    ensures b in hs ==> Entries(hs[b].node) != {}
  {
    forall a, e | a in hs && e in Entries(hs[a].node)
      ensures |e.0| > |p| && e.0[|p|] == a
    {
      EntryByte(hs, p, len, a, e);
    }
    if b in hs { var e := SomeEntry(hs[b].node, p + [b], len); }
  }

  /** Branches at one position with the same entries have the same shape below. */
  lemma {:induction false} SameBranches(g: map<Byte, Hash>, h: map<Byte, Hash>, p: Key, len: nat)
    requires Open(Branch(g), p, len) && Open(Branch(h), p, len)
    requires Entries(Branch(g)) == Entries(Branch(h))
    ensures Erase(Branch(g)) == Erase(Branch(h))
    decreases Branch(g), 0
  {
    forall b: Byte
      ensures b in g <==> b in h
      ensures b in g && b in h ==> Erase(g[b].node) == Erase(h[b].node)
    {
      ChildEntries(g, p, len, b);
      ChildEntries(h, p, len, b);
      if b in g && b in h { SameShape(g[b].node, h[b].node, p + [b], len); }
    }
    assert g.Keys == h.Keys;
  }

  /** Below a well-formed node that is no leaf there is a branch, after a possibly empty path. */
  ghost function Peel(n: Node): (Key, map<Byte, Hash>)
    requires n.Branch? || (n.Extension? && n.child.node.Branch?)
  {
    if n.Branch? then ([], n.hashes) else (n.path, n.child.node.hashes)
  }

  lemma PeelMeans(n: Node, p: Key, len: nat)
    requires WellFormed(n, p, len) && !n.Leaf?
    ensures n.Extension? ==> n.child.node.Branch?
    ensures var (q, hs) := Peel(n);
            && WellFormed(Branch(hs), p + q, len)
            && Entries(n) == Entries(Branch(hs))
            && Erase(n) == Under(q, Erase(Branch(hs)))
            && (Branch(hs) == n || Branch(hs) < n)
  {
    assert p + [] == p;
  }

  /** Well-formed nodes at one position with the same entries have the same shape. */
  lemma {:induction false} SameShape(m: Node, n: Node, p: Key, len: nat)
    requires WellFormed(m, p, len) && WellFormed(n, p, len)
    requires Entries(m) == Entries(n)
    ensures Erase(m) == Erase(n)
    decreases m, 1
  {
    if m.Leaf? || n.Leaf? {
      LeafIsAlone(m, n, p, len);
    } else {
      PeelMeans(m, p, len);
      PeelMeans(n, p, len);
      hide WellFormed, Entries;
      var (q, g) := Peel(m);
      var (r, h) := Peel(n);
      ForkPoint(g, p + q, h, p + r, len);
      assert q == (p + q)[|p|..] == r;
      WellFormedIsOpen(Branch(g), p + q, len);
      WellFormedIsOpen(Branch(h), p + q, len);
      SameBranches(g, h, p + q, len);
    }
  }

  lemma LeafIsAlone(m: Node, n: Node, p: Key, len: nat)
    requires WellFormed(m, p, len) && WellFormed(n, p, len) && (m.Leaf? || n.Leaf?)
    requires Entries(m) == Entries(n)
    ensures m == n
  {
    if !m.Leaf? {
      PeelMeans(m, p, len);
      var e, f := TwoEntries(Peel(m).1, p + Peel(m).0, len);
    } else if !n.Leaf? {
      PeelMeans(n, p, len);
      var e, f := TwoEntries(Peel(n).1, p + Peel(n).0, len);
    } else {
      assert (m.key, m.value) in Entries(n);
    }
  }

  /** Two tries store the same map if and only if they have the same shape once empty paths are erased. */
  lemma ShapeIsTheMap(m: Node, n: Node, len: nat)
    requires IsRoot(m, len) && IsRoot(n, len)
    ensures Entries(m) == Entries(n) <==> Erase(m) == Erase(n)
  {
    if Entries(m) == Entries(n) { SameBranches(m.hashes, n.hashes, [], len); }
    EraseKeepsEntries(m);
    EraseKeepsEntries(n);
  }

  // ---- the root hash does depend on the order of insertion

  ghost function UpsertRoot(root: Node, key: Key, value: Value): Node
    requires IsRoot(root, |key|)
  {
    RootAt(root, key);
    Upserted(root, key, 0, value)
  }

  /** Upserting at the root of any trie: a map update, and a root again. */
  lemma UpsertRootMeans(root: Node, key: Key, value: Value)
    requires IsRoot(root, |key|)
    ensures IsRoot(UpsertRoot(root, key, value), |key|)
    ensures Entries(UpsertRoot(root, key, value)) == Without(Entries(root), key) + {(key, value)}
  {
    RootAt(root, key);
    UpsertMeans(root, key, 0, value);
    RootAt(UpsertRoot(root, key, value), key);
  }

  const K1: Key := [0, 1, 1]
  const K2: Key := [0, 1, 2]
  const K3: Key := [0, 2, 0]

  ghost function Two(v: Value): Node {
    Branch(map[1 := HashOf(Leaf(K1, v)), 2 := HashOf(Leaf(K2, v))])
  }

  // The child of the root after 011, 012, 020: the split of the extension leaves one with an empty path.
  lemma FirstOrder(v: Value)
    ensures At(Leaf(K1, v), K2, 1) && OpenAt(Leaf(K1, v), K2, 1)
    ensures Upserted(Leaf(K1, v), K2, 1, v) == Extension([1], HashOf(Two(v)))
    ensures OpenAt(Extension([1], HashOf(Two(v))), K3, 1)
    ensures Upserted(Extension([1], HashOf(Two(v))), K3, 1, v) ==
            Branch(map[1 := HashOf(Extension([], HashOf(Two(v)))), 2 := HashOf(Leaf(K3, v))])
  {
    LeafShape(K1, v, K2[..1], 3);
    WellFormedIsOpen(Leaf(K1, v), K2[..1], 3);
    assert CommonPrefix(K1[1..], K2[1..]) == 1;
    assert K1[1..2] == [1];
    UpsertMeans(Leaf(K1, v), K2, 1, v);
    assert K3[..1] == K2[..1];
    assert CommonPrefix([1], K3[1..]) == 0;
    assert [1][1..] == [] && K3[1..1] == [];
  }

  // The child of the root after 011, 020, 012.
  lemma SecondOrder(v: Value)
    ensures At(Leaf(K1, v), K3, 1) && OpenAt(Leaf(K1, v), K3, 1)
    ensures var n := Branch(map[1 := HashOf(Leaf(K1, v)), 2 := HashOf(Leaf(K3, v))]);
            && Upserted(Leaf(K1, v), K3, 1, v) == n && OpenAt(n, K2, 1)
            && Upserted(n, K2, 1, v) == Branch(map[1 := HashOf(Two(v)), 2 := HashOf(Leaf(K3, v))])
  {
    LeafShape(K1, v, K3[..1], 3);
    WellFormedIsOpen(Leaf(K1, v), K3[..1], 3);
    assert CommonPrefix(K1[1..], K3[1..]) == 0;
    assert K1[1..1] == [];
    UpsertMeans(Leaf(K1, v), K3, 1, v);
    var n := Upserted(Leaf(K1, v), K3, 1, v);
    assert n == Branch(map[1 := HashOf(Leaf(K1, v)), 2 := HashOf(Leaf(K3, v))]);
    assert K3[..1] == K2[..1];
    BranchStep(n.hashes, K2, 1);
    assert CommonPrefix(K1[2..], K2[2..]) == 0;
    assert K1[2..2] == [];
  }

  /** Children put under byte 0 of a root. */
  ghost function Root0(child: Node): Node {
    Branch(map[0 := HashOf(child)])
  }

  lemma UpsertUnder0(child: Node, key: Key, v: Value)
    requires |key| == 3 && key[0] == 0 && At(child, key, 1)
    ensures IsRoot(Root0(child), 3) && OpenAt(child, key, 1)
    ensures UpsertRoot(Root0(child), key, v) == Root0(Upserted(child, key, 1, v))
  {
    AtIsOpen(child, key, 1);
    assert key[..1] == [] + [0];
    RootAt(Root0(child), key);
  }

  /** Two entries with different keys give one erased shape, whichever goes in first. */
  lemma OrderIsErased(root: Node, j: Key, v: Value, k: Key, w: Value)
    requires IsRoot(root, |j|) && |j| == |k| && j != k
    ensures var x, y := UpsertRoot(root, j, v), UpsertRoot(root, k, w);
            && IsRoot(x, |k|) && IsRoot(y, |j|)
            && Erase(UpsertRoot(x, k, w)) == Erase(UpsertRoot(y, j, v))
  {
    hide IsRoot, Erase, UpsertRoot;
    UpsertRootMeans(root, j, v);
    UpsertRootMeans(root, k, w);
    var x, y := UpsertRoot(root, j, v), UpsertRoot(root, k, w);
    UpsertRootMeans(x, k, w);
    UpsertRootMeans(y, j, v);
    assert Entries(UpsertRoot(x, k, w)) == Entries(UpsertRoot(y, j, v));
    ShapeIsTheMap(UpsertRoot(x, k, w), UpsertRoot(y, j, v), |j|);
  }

  /** But not one hash: the same three entries in two orders of insertion. */
  lemma OrderShowsInTheHash(v: Value)
    ensures IsRoot(EMPTY_ROOT, 3) && IsRoot(UpsertRoot(EMPTY_ROOT, K1, v), 3)
    ensures var x := UpsertRoot(EMPTY_ROOT, K1, v);
            && var y := UpsertRoot(x, K2, v);
            && var z := UpsertRoot(x, K3, v);
            && IsRoot(y, 3) && IsRoot(z, 3)
            && HashOf(UpsertRoot(y, K3, v)) != HashOf(UpsertRoot(z, K2, v))
            && Erase(UpsertRoot(y, K3, v)) == Erase(UpsertRoot(z, K2, v))
  {
    FirstEntry(v);
    hide IsRoot, Erase, UpsertRoot;
    ThreeSteps(v);
    assert K2[2] != K3[2];
    OrderIsErased(UpsertRoot(EMPTY_ROOT, K1, v), K2, v, K3, v);
  }

  lemma FirstEntry(v: Value)
    ensures IsRoot(EMPTY_ROOT, 3) && UpsertRoot(EMPTY_ROOT, K1, v) == Root0(Leaf(K1, v))
  {
    hide WellFormed;
    UpsertRootMeans(EMPTY_ROOT, K1, v);
  }

  lemma ThreeSteps(v: Value)
    ensures var x := Root0(Leaf(K1, v));
            && IsRoot(x, 3)
            && var y := UpsertRoot(x, K2, v);
            && var z := UpsertRoot(x, K3, v);
            && IsRoot(y, 3) && IsRoot(z, 3)
            && UpsertRoot(y, K3, v) != UpsertRoot(z, K2, v)
  {
    FirstOrder(v);
    SecondOrder(v);
    hide WellFormed, Upserted;
    var l := Leaf(K1, v);
    UpsertUnder0(l, K2, v);
    UpsertUnder0(l, K3, v);
    UpsertMeans(l, K2, 1, v);
    UpsertMeans(l, K3, 1, v);
    assert K2[..1] == K3[..1];
    UpsertUnder0(Upserted(l, K2, 1, v), K3, v);
    UpsertUnder0(Upserted(l, K3, 1, v), K2, v);
    DifferentChildren(v);
  }

  lemma DifferentChildren(v: Value)
    ensures Root0(Branch(map[1 := HashOf(Extension([], HashOf(Two(v)))), 2 := HashOf(Leaf(K3, v))])) !=
            Root0(Branch(map[1 := HashOf(Two(v)), 2 := HashOf(Leaf(K3, v))]))
  {
    var g := map[1 := HashOf(Extension([], HashOf(Two(v)))), 2 := HashOf(Leaf(K3, v))];
    var h := map[1 := HashOf(Two(v)), 2 := HashOf(Leaf(K3, v))];
    assert g[1] != h[1];
    assert map[0 := HashOf(Branch(g))][0] != map[0 := HashOf(Branch(h))][0];
  }
}
