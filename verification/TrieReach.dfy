/**
Which hashes a node operation must take out of the store and put into it: how
the set of reachable hashes changes, and that nothing taken out is still in use.
*/
module TrieReach {
  import opened ByteStrings
  import opened TrieNodes
  import opened TrieOps

  /** What the other children of a branch reach. */
  ghost function Beside(hs: map<Byte, Hash>, k: Byte): set<Hash> {
    BelowReach(Branch(hs - {k}))
  }

  lemma ReachOfBranch(hs: map<Byte, Hash>, k: Byte)
    ensures k in hs ==> BelowReach(Branch(hs)) == Reach(hs[k].node) + Beside(hs, k)
    ensures k !in hs ==> BelowReach(Branch(hs)) == Beside(hs, k)
  {
    if k in hs {
      var rest := hs - {k};
      forall h | h in BelowReach(Branch(hs)) ensures h in Reach(hs[k].node) + Beside(hs, k) {
        var b :| b in hs && h in {hs[b]} + BelowReach(hs[b].node);
        if b != k { assert b in rest && h in {rest[b]} + BelowReach(rest[b].node); }
      }
      forall h | h in Reach(hs[k].node) ensures h in BelowReach(Branch(hs)) {
        assert hs[k] == HashOf(hs[k].node);
      }
      forall h | h in Beside(hs, k) ensures h in BelowReach(Branch(hs)) {
        var b :| b in rest && h in {rest[b]} + BelowReach(rest[b].node);
        assert b in hs && h in {hs[b]} + BelowReach(hs[b].node);
      }
    } else {
      assert hs - {k} == hs;
    }
  }

  lemma ReachReplaced(hs: map<Byte, Hash>, k: Byte, c: Node)
    ensures BelowReach(Branch(hs[k := HashOf(c)])) == Reach(c) + Beside(hs, k)
  {
    var to := hs[k := HashOf(c)];
    assert to - {k} == hs - {k};
    ReachOfBranch(to, k);
  }

  lemma BesideIsOrphan(hs: map<Byte, Hash>, k: Byte)
    requires |hs| == 2 && k in hs
    ensures var o := Orphan(hs, k); Beside(hs, k) == Reach(hs[o].node)
  {
    var o := Orphan(hs, k);
    OrphanIs(hs, k, o);
    ReachOfBranch(hs - {k}, o);
    assert hs - {k} - {o} == map[];
  }

  lemma BesideIsDisjoint(hs: map<Byte, Hash>, p: Key, len: nat, k: Byte)
    requires Open(Branch(hs), p, len) && k in hs
    ensures Beside(hs, k) !! Reach(hs[k].node)
  {
    forall h | h in Beside(hs, k)
      ensures h !in Reach(hs[k].node)
    {
      var rest := hs - {k};
      var b :| b in rest && h in {rest[b]} + BelowReach(rest[b].node);
      SiblingsDisjoint(hs, p, len, b, k);
      assert h in Reach(hs[b].node);
    }
  }

  /** A branch is not among the nodes below any node that may stand under one of its bytes. */
  lemma BranchNotUnder(hs: map<Byte, Hash>, p: Key, len: nat, k: Byte, c: Node)
    requires Open(Branch(hs), p, len) && WellFormed(c, p + [k], len)
    ensures HashOf(Branch(hs)) !in Reach(c)
  {
    var h := HashOf(Branch(hs));
    if h in Reach(c) {
      var q := p + [k];
      if h != HashOf(c) {
        WellFormedIsOpen(c, p + [k], len);
        q := BelowIsWellFormed(c, p + [k], len, h);
      }
      ForksBefore(hs, p, len, Branch(hs), q);
    }
  }

  /** A node that holds what a branch at `p` holds cannot stand at a longer position. */
  lemma ForksBefore(hs: map<Byte, Hash>, p: Key, len: nat, n: Node, q: Key)
    requires Open(Branch(hs), p, len) && |hs| >= 2
    requires Entries(Branch(hs)) <= Entries(n) && WellFormed(n, q, len)
    ensures |q| <= |p|
  {
    var e, f := TwoEntries(hs, p, len);
    WellFormedIsOpen(n, q, len);
    EntriesHavePrefix(n, q, len, e);
    EntriesHavePrefix(n, q, len, f);
    SharedPrefix(q, e.0, f.0, |p|);
  }

  /** An extension is not among the nodes of any branch that may stand at its end. */
  lemma ExtensionNotUnder(path: Key, c: Hash, p: Key, len: nat, hs: map<Byte, Hash>)
    requires WellFormed(Extension(path, c), p, len) && Open(Branch(hs), p + path, len)
    ensures HashOf(Extension(path, c)) !in Reach(Branch(hs))
  {
    var h := HashOf(Extension(path, c));
    if h in Reach(Branch(hs)) {
      var q := BelowIsWellFormed(Branch(hs), p + path, len, h);
      WellFormedIsOpen(c.node, p + path, len);
      ForksBefore(c.node.hashes, p + path, len, Extension(path, c), q);
    }
  }

  /** Upserting at the end of an extension: the old extension is not among the nodes of its new child. */
  lemma UpsertAtEnd(path: Key, c: Hash, key: Key, offset: nat, value: Value)
    requires OpenAt(Extension(path, c), key, offset) && CommonPrefix(path, key[offset..]) == |path|
    ensures OpenAt(c.node, key, offset + |path|)
    ensures var d := Upserted(c.node, key, offset + |path|, value);
            && Upserted(Extension(path, c), key, offset, value) == Extension(path, HashOf(d))
            && HashOf(Extension(path, c)) !in Reach(d)
  {
    hide WellFormed, Upserted, Reach;
    ExtensionStep(path, c, key, offset);
    UpsertExtensionIs(path, c, key, offset, value, |path|);
    assert key[..offset] + path == key[..offset + |path|];
    UpsertMeans(c.node, key, offset + |path|, value);
    ExtensionNotUnder(path, c, key[..offset], |key|, Upserted(c.node, key, offset + |path|, value).hashes);
  }

  /** Upserting under a byte of a branch: the old branch is not among the nodes of its new child. */
  lemma UpsertUnder(hs: map<Byte, Hash>, key: Key, offset: nat, value: Value)
    requires OpenAt(Branch(hs), key, offset)
    ensures offset < |key|
    ensures key[offset] in hs ==> OpenAt(hs[key[offset]].node, key, offset + 1)
    ensures var k := key[offset];
            var d := if k in hs then Upserted(hs[k].node, key, offset + 1, value) else Leaf(key, value);
            && Upserted(Branch(hs), key, offset, value) == Branch(hs[k := HashOf(d)])
            && HashOf(Branch(hs)) !in Reach(d)
  {
    BranchStep(hs, key, offset);
    var k := key[offset];
    if k in hs {
      UpsertMeans(hs[k].node, key, offset + 1, value);
      BranchNotUnder(hs, key[..offset], |key|, k, Upserted(hs[k].node, key, offset + 1, value));
    } else {
      NewLeaf(key, value, offset + 1);
    }
  }

  /** A node that holds a key is not among the nodes of a tree without it. */
  lemma HolderNotUnder(n: Node, key: Key, c: Node, p: Key, len: nat)
    requires HasKey(Entries(n), key) && !HasKey(Entries(c), key) && Open(c, p, len)
    ensures HashOf(n) !in Reach(c)
  {
    var e :| e in Entries(n) && e.0 == key;
    if HashOf(n) in Reach(c) && n != c {
      var q := BelowIsWellFormed(c, p, len, HashOf(n));
    }
  }

  /** Deleting at the end of an extension: something is left there, and the extension is not among its nodes. */
  lemma DeleteAtEnd(path: Key, c: Hash, key: Key, offset: nat, m: nat)
    requires At(Extension(path, c), key, offset) && m == CommonPrefix(path, key[offset..]) == |path|
    ensures c.node.Branch? && offset + m < |key| && At(c.node, key, offset + m)
    ensures key[..offset] + path == key[..offset + m]
    ensures var d := Deleted(c.node, key, offset + m);
            && Deleted(Extension(path, c), key, offset) == Shorten(path, d)
            && !d.Emptied?
            && (d.Kept? ==> At(d.node, key, offset + m) && HashOf(Extension(path, c)) !in Reach(d.node))
  {
    hide WellFormed, Reach, Deleted, Shorten;
    DeleteExtensionIs(path, c, key, offset, m);
    assert key[..offset] + path == key[..offset + m];
    var d := Deleted(c.node, key, offset + m);
    DeleteMeans(c.node, key, offset + m);
    if d.Kept? {
      AtIsOpen(d.node, key, offset + m);
      HolderNotUnder(Extension(path, c), key, d.node, key[..offset + m], |key|);
    }
  }

  /** Deleting under a byte of a branch: the branch is not among the nodes of what is left there. */
  lemma DeleteUnder(hs: map<Byte, Hash>, key: Key, offset: nat)
    requires OpenAt(Branch(hs), key, offset)
    ensures offset < |key|
    ensures key[offset] in hs ==>
              && At(hs[key[offset]].node, key, offset + 1)
              && var d := Deleted(hs[key[offset]].node, key, offset + 1);
              && (d.Kept? ==> HashOf(Branch(hs)) !in Reach(d.node))
  {
    hide WellFormed, Reach, Deleted;
    BranchStep(hs, key, offset);
    var k := key[offset];
    if k in hs {
      KeyInBranch(hs, key, offset);
      DeleteMeans(hs[k].node, key, offset + 1);
      var d := Deleted(hs[k].node, key, offset + 1);
      if d.Kept? {
        AtIsOpen(d.node, key, offset + 1);
        HolderNotUnder(Branch(hs), key, d.node, key[..offset + 1], |key|);
      }
    }
  }

  lemma DeleteRootIs(hs: map<Byte, Hash>, key: Key)
    requires IsRoot(Branch(hs), |key|)
    ensures OpenAt(Branch(hs), key, 0) && |key| > 0
    ensures key[0] !in hs ==> DeleteRoot(Branch(hs), key) == NotFound
    ensures key[0] in hs ==>
              && At(hs[key[0]].node, key, 1)
              && DeleteRoot(Branch(hs), key) ==
                 match Deleted(hs[key[0]].node, key, 1)
                 case NotFound => NotFound
                 case Kept(c) => Kept(Branch(hs[key[0] := HashOf(c)]))
                 case Emptied => Kept(Branch(hs - {key[0]}))
  {
    hide WellFormed, Deleted;
    RootAt(Branch(hs), key);
    BranchStep(hs, key, 0);
  }

  /**
  Every extension outside the subtree of `n` at `p` holds an entry from elsewhere,
  except the one that points to `n`.
  */
  ghost predicate Apart(frame: set<Hash>, n: Node, p: Key) {
    forall h | h in frame && h.node.Extension? ::
      || (exists e :: e in Entries(h.node) && !(p <= e.0))
      || (n.Branch? && Entries(n) <= Entries(h.node))
  }

  lemma ApartFromChild(frame: set<Hash>, hs: map<Byte, Hash>, p: Key, len: nat, k: Byte)
    requires Open(Branch(hs), p, len) && k in hs
    requires Apart(frame, Branch(hs), p)
    requires |hs| >= 2 || frame == {}
    ensures Apart(frame + {HashOf(Branch(hs))} + Beside(hs, k), hs[k].node, p + [k])
  {
    forall h | h in frame + {HashOf(Branch(hs))} + Beside(hs, k) && h.node.Extension?
      ensures exists e :: e in Entries(h.node) && !(p + [k] <= e.0)
    {
      if h in Beside(hs, k) {
        EntryBeside(hs, p, len, k, h);
      } else if exists e :: e in Entries(h.node) && !(p <= e.0) {
        var e :| e in Entries(h.node) && !(p <= e.0);
        assert p <= p + [k];
        assert !(p + [k] <= e.0);
      } else {
        var e := EntryElsewhere(hs, p, len, k);
      }
    }
  }

  lemma EntryElsewhere(hs: map<Byte, Hash>, p: Key, len: nat, k: Byte) returns (e: Entry)
    requires Open(Branch(hs), p, len) && |hs| >= 2
    ensures e in Entries(Branch(hs)) && !(p + [k] <= e.0)
  {
    assert |hs.Keys| >= 2;
    var b := AnotherByte(hs.Keys, k);
    e := SomeEntry(hs[b].node, p + [b], len);
    EntryByte(hs, p, len, b, e);
    assert (p + [k])[|p|] == k;
  }

  lemma EntryBeside(hs: map<Byte, Hash>, p: Key, len: nat, k: Byte, h: Hash)
    requires Open(Branch(hs), p, len) && h in Beside(hs, k)
    ensures exists e :: e in Entries(h.node) && !(p + [k] <= e.0)
  {
    var rest := hs - {k};
    var b :| b in rest && h in {rest[b]} + BelowReach(rest[b].node);
    var q := p + [b];
    WellFormedIsOpen(hs[b].node, p + [b], len);
    if h != hs[b] { q := BelowIsWellFormed(hs[b].node, p + [b], len, h); }
    var e := SomeEntry(h.node, q, len);
    EntryByte(hs, p, len, b, e);
    assert (p + [k])[|p|] == k;
  }

  lemma ApartFromEnd(frame: set<Hash>, path: Key, c: Hash, p: Key)
    requires Apart(frame, Extension(path, c), p) && c.node.Branch?
    ensures Apart(frame + {HashOf(Extension(path, c))}, c.node, p + path)
  {
    forall h | h in frame && h.node.Extension?
      ensures exists e :: e in Entries(h.node) && !(p + path <= e.0)
    {
      var e :| e in Entries(h.node) && !(p <= e.0);
      assert p <= p + path;
      assert !(p + path <= e.0);
    }
  }

  /** An extension below `p` is not among the nodes apart from an extension at `p`. */
  lemma NotApart(frame: set<Hash>, n: Node, p: Key, len: nat, m: Node, q: Key)
    requires Apart(frame, n, p) && n.Extension?
    requires m.Extension? && WellFormed(m, p + q, len)
    ensures HashOf(m) !in frame
  {
    assert p <= p + q;
    if HashOf(m) in frame {
      var e :| e in Entries(m) && !(p <= e.0);
      WellFormedIsOpen(m, p + q, len);
      EntriesHavePrefix(m, p + q, len, e);
    }
  }
}
