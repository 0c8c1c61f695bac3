/**
The iterator over the leaves of a trie (db/trie/leafiterator.go): a stack of
nodes, of which the topmost is taken off and replaced by its children until it
is a leaf.
*/
module LeafIterator {
  import opened ByteStrings
  import opened Counting
  import opened TrieNodes
  import opened TrieMap
  import opened TrieReach
  import opened TrieStore

  ghost function KeysOf(n: Node): set<Key> {
    set e | e in Entries(n) :: e.0
  }

  ghost function StackKeys(stack: seq<Node>): set<Key> {
    set n, k | n in stack && k in KeysOf(n) :: k
  }

  ghost function Under(stack: seq<Node>): set<Hash> {
    set n, h | n in stack && h in Reach(n) :: h
  }

  ghost predicate Fits(n: Node, len: nat) {
    exists p :: WellFormed(n, p, len)
  }

  /** Nodes of a trie that hold no key twice; only the root may stand alone with fewer than two children. */
  ghost predicate Separate(stack: seq<Node>, len: nat) {
    && (forall n :: n in stack ==> Fits(n, len) || (|stack| == 1 && IsRoot(n, len)))
    && (forall i, j :: 0 <= i < j < |stack| ==> KeysOf(stack[i]) !! KeysOf(stack[j]))
  }

  /** The children of a branch, in some order. */
  ghost predicate ChildrenOf(hs: map<Byte, Hash>, bytes: seq<Byte>, cs: seq<Node>) {
    && |cs| == |bytes|
    && (forall i :: 0 <= i < |bytes| ==> bytes[i] in hs && cs[i] == hs[bytes[i]].node)
    && (forall i, j :: 0 <= i < j < |bytes| ==> bytes[i] != bytes[j])
    && (forall b :: b in hs ==> b in bytes)
  }

  lemma ChildrenFit(hs: map<Byte, Hash>, p: Key, len: nat, bytes: seq<Byte>, cs: seq<Node>)
    requires Open(Branch(hs), p, len) && ChildrenOf(hs, bytes, cs)
    ensures forall c :: c in cs ==> Fits(c, len)
    ensures forall i, j :: 0 <= i < j < |cs| ==> KeysOf(cs[i]) !! KeysOf(cs[j])
    ensures StackKeys(cs) == KeysOf(Branch(hs))
    ensures Under(cs) == BelowReach(Branch(hs))
  {
    forall c | c in cs ensures Fits(c, len) {
      var i :| 0 <= i < |cs| && c == cs[i];
      assert WellFormed(hs[bytes[i]].node, p + [bytes[i]], len);
    }
    forall i, j | 0 <= i < j < |cs| ensures KeysOf(cs[i]) !! KeysOf(cs[j]) {
      KeysHaveByte(hs, p, len, bytes[i]);
      KeysHaveByte(hs, p, len, bytes[j]);
    }
    forall k | k in KeysOf(Branch(hs)) ensures k in StackKeys(cs) {
      var e :| e in Entries(Branch(hs)) && e.0 == k;
      var b :| b in hs && e in Entries(hs[b].node);
      var i :| 0 <= i < |bytes| && bytes[i] == b;
      assert cs[i] in cs && k in KeysOf(cs[i]);
    }
    forall h | h in BelowReach(Branch(hs)) ensures h in Under(cs) {
      var b :| b in hs && h in {hs[b]} + BelowReach(hs[b].node);
      var i :| 0 <= i < |bytes| && bytes[i] == b;
      assert cs[i] in cs && h in Reach(cs[i]);
    }
  }

  lemma KeysHaveByte(hs: map<Byte, Hash>, p: Key, len: nat, b: Byte)
    requires Open(Branch(hs), p, len) && b in hs
    ensures forall k :: k in KeysOf(hs[b].node) ==> |k| > |p| && k[|p|] == b
  {
    forall e | e in Entries(hs[b].node) ensures |e.0| > |p| && e.0[|p|] == b {
      EntryByte(hs, p, len, b, e);
    }
  }

  /** What the children of a node are to the rest of the trie. */
  lemma Children(n: Node, len: nat, bytes: seq<Byte>, cs: seq<Node>)
    requires Fits(n, len) || IsRoot(n, len)
    requires match n
             case Leaf(_, _) => cs == []
             case Extension(_, c) => cs == [c.node]
             case Branch(hs) => ChildrenOf(hs, bytes, cs)
    ensures forall c :: c in cs ==> Fits(c, len)
    ensures forall i, j :: 0 <= i < j < |cs| ==> KeysOf(cs[i]) !! KeysOf(cs[j])
    ensures !n.Leaf? ==> StackKeys(cs) == KeysOf(n) && Under(cs) == BelowReach(n)
  {
    match n
    case Leaf(_, _) =>
    case Extension(q, c) =>
      var p :| WellFormed(n, p, len);
      assert WellFormed(c.node, p + q, len);
      Single(c.node);
    case Branch(hs) =>
      if IsRoot(n, len) {
        ChildrenFit(hs, [], len, bytes, cs);
      } else {
        var p :| WellFormed(n, p, len);
        ChildrenFit(hs, p, len, bytes, cs);
      }
  }

  lemma Concatenated(a: seq<Node>, b: seq<Node>)
    ensures StackKeys(a + b) == StackKeys(a) + StackKeys(b)
    ensures Under(a + b) == Under(a) + Under(b)
  {
    assert forall n :: n in a + b <==> n in a || n in b;
  }

  lemma Single(n: Node)
    ensures StackKeys([n]) == KeysOf(n) && Under([n]) == Reach(n)
  {
    assert forall m :: m in [n] <==> m == n;
  }

  lemma RestIsSeparate(rest: seq<Node>, top: Node, len: nat)
    requires Separate(rest + [top], len)
    ensures Separate(rest, len) && (forall n :: n in rest ==> Fits(n, len))
    ensures StackKeys(rest) !! KeysOf(top)
    ensures Fits(top, len) || (rest == [] && IsRoot(top, len))
  {
    var from := rest + [top];
    assert top in from;
    forall n | n in rest ensures Fits(n, len) && KeysOf(n) !! KeysOf(top) {
      assert n in from;
      var i :| 0 <= i < |rest| && rest[i] == n;
      assert from[i] == n && from[|rest|] == top;
    }
    forall i, j | 0 <= i < j < |rest| ensures KeysOf(rest[i]) !! KeysOf(rest[j]) {
      assert from[i] == rest[i] && from[j] == rest[j];
    }
  }

  lemma SharedKey(n: Node, m: Node, len: nat)
    requires Fits(n, len) && Fits(m, len) && HashOf(n) in Reach(m)
    ensures exists k :: k in KeysOf(n) && k in KeysOf(m)
  {
    var p :| WellFormed(n, p, len);
    var q :| WellFormed(m, q, len);
    var e := SomeEntry(n, p, len);
    WellFormedIsOpen(m, q, len);
    if n != m { var r := BelowIsWellFormed(m, q, len, HashOf(n)); }
    assert e.0 in KeysOf(n) && e.0 in KeysOf(m);
  }

  /** A node is not below the others of its stack, nor below its own children. */
  lemma TopIsNotUnder(rest: seq<Node>, top: Node, len: nat)
    requires Separate(rest + [top], len)
    ensures HashOf(top) !in Under(rest) + BelowReach(top)
  {
    NotBelowItself(top);
    RestIsSeparate(rest, top, len);
    if HashOf(top) in Under(rest) {
      var m :| m in rest && HashOf(top) in Reach(m);
      SharedKey(top, m, len);
    }
  }

  lemma Pushed(rest: seq<Node>, cs: seq<Node>, len: nat)
    requires Separate(rest, len) && (forall n :: n in rest ==> Fits(n, len))
    requires forall c :: c in cs ==> Fits(c, len)
    requires forall i, j :: 0 <= i < j < |cs| ==> KeysOf(cs[i]) !! KeysOf(cs[j])
    requires StackKeys(rest) !! StackKeys(cs)
    ensures Separate(rest + cs, len)
  {
    var to := rest + cs;
    forall i, j | 0 <= i < j < |to| ensures KeysOf(to[i]) !! KeysOf(to[j]) {
      if i < |rest| <= j {
        assert to[i] in rest && to[j] in cs;
        assert KeysOf(to[i]) <= StackKeys(rest) && KeysOf(to[j]) <= StackKeys(cs);
      }
    }
  }

  /** Every key of the trie is on the stack or was returned, once. */
  ghost predicate Covers(stack: seq<Node>, yielded: seq<Key>, root: Node, len: nat) {
    && Separate(stack, len)
    && Under(stack) <= Reach(root)
    && StackKeys(stack) + Elems(yielded) == Contents(root).Keys
    && StackKeys(stack) !! Elems(yielded)
    && Distinct(yielded)
  }

  /** Returning the leaf on top of the stack. */
  lemma LeafReturned(rest: seq<Node>, top: Node, yielded: seq<Key>, root: Node, len: nat)
    requires IsRoot(root, len) && top.Leaf? && Covers(rest + [top], yielded, root, len)
    ensures Covers(rest, yielded + [top.key], root, len)
    ensures top.key !in Elems(yielded) && HashOf(top) in Reach(root)
  {
    Concatenated(rest, [top]);
    Single(top);
    RestIsSeparate(rest, top, len);
    Appended(yielded, top.key);
    assert (top.key, top.value) in Entries(top);
    assert KeysOf(top) == {top.key};
    assert HashOf(top) in Reach(top);
  }

  /** Replacing the node on top of the stack by its children. */
  lemma ChildrenPushed(rest: seq<Node>, top: Node, bytes: seq<Byte>, cs: seq<Node>, yielded: seq<Key>, root: Node,
                       len: nat)
    requires IsRoot(root, len) && !top.Leaf? && Covers(rest + [top], yielded, root, len)
    requires match top
             case Leaf(_, _) => true
             case Extension(_, c) => cs == [c.node]
             case Branch(hs) => ChildrenOf(hs, bytes, cs)
    ensures Covers(rest + cs, yielded, root, len)
    ensures Under(rest + cs) < Under(rest + [top])
  {
    hide KeysOf, Fits, StackKeys, Under, Distinct, Contents, ChildrenOf, WellFormed, Entries, BelowReach;
    Concatenated(rest, [top]);
    Concatenated(rest, cs);
    Single(top);
    RestIsSeparate(rest, top, len);
    Children(top, len, bytes, cs);
    Pushed(rest, cs, len);
    TopIsNotUnder(rest, top, len);
    assert HashOf(top) in Reach(top);
  }

  lemma LeafOfTrie(n: Node, root: Node, len: nat)
    requires n.Leaf? && IsRoot(root, len) && HashOf(n) in Reach(root)
    ensures n.key in Contents(root) && Contents(root)[n.key] == n.value
  {
    var p := BelowIsWellFormed(root, [], len, HashOf(n));
    ContentsItems(root, [], len);
    assert (n.key, n.value) in Entries(n);
  }

  lemma RoomLeft(stack: seq<Node>, yielded: seq<Key>, root: Node, len: nat, k: Key)
    requires Covers(stack, yielded, root, len) && k in Contents(root).Keys - Elems(yielded)
    ensures |yielded| < |Contents(root).Keys|
  {
    DistinctCount(yielded);
    assert Elems(yielded) <= Contents(root).Keys - {k};
    Fewer(Elems(yielded), Contents(root).Keys - {k});
  }

  lemma AllReturned(yielded: seq<Key>, root: Node, len: nat)
    requires Covers([], yielded, root, len)
    ensures Elems(yielded) == Contents(root).Keys && |yielded| == |Contents(root).Keys|
  {
    DistinctCount(yielded);
    assert StackKeys([]) == {};
  }

  lemma UnderTop(rest: seq<Node>, top: Node, yielded: seq<Key>, root: Node, len: nat)
    requires Covers(rest + [top], yielded, root, len)
    ensures Reach(top) <= Reach(root)
  {
    assert top in rest + [top];
  }

  class Iterator {
    const tr: BranchRootTrie
    var stack: seq<Node>
    /** The keys returned so far. */
    ghost var yielded: seq<Key>

    ghost predicate Valid()
      reads this, tr, tr.kvStore.dao, tr.kvStore.cb, tr.kvStore.cb.cache, tr.kvStore.cb.cacheShots
    {
      tr.Valid() && Covers(stack, yielded, tr.root, tr.keyLength)
    }

    constructor (tr: BranchRootTrie)
      requires tr.Valid()
      ensures Valid() && this.tr == tr && yielded == []
    {
      hide BranchRootTrie.Holds;
      this.tr := tr;
      stack := [tr.root];
      yielded := [];
      new;
      Single(tr.root);
      assert KeysOf(tr.root) == Contents(tr.root).Keys;
    }

    method ChildNodes(n: Node) returns (cs: seq<Node>, ghost bytes: seq<Byte>)
      requires tr.Valid() && Reach(n) <= Reach(tr.root)
      ensures match n
              case Leaf(_, _) => cs == []
              case Extension(_, c) => cs == [c.node]
              case Branch(hs) => ChildrenOf(hs, bytes, cs)
    {
      hide BranchRootTrie.Holds;
      bytes := [];
      match n
      case Leaf(_, _) =>
        cs := [];
      case Extension(_, c) =>
        var child := tr.LoadNodeFromDB(c, Reach(tr.root));
        cs := [child.value];
      case Branch(hs) =>
        cs, bytes := LoadChildren(hs);
    }

    method LoadChildren(hs: map<Byte, Hash>) returns (cs: seq<Node>, ghost bytes: seq<Byte>)
      requires tr.Valid() && Reach(Branch(hs)) <= Reach(tr.root)
      ensures ChildrenOf(hs, bytes, cs)
    {
      hide BranchRootTrie.Holds;
      cs, bytes := [], [];
      var todo := hs.Keys;
      while todo != {}
        invariant todo <= hs.Keys && |cs| == |bytes|
        invariant forall i :: 0 <= i < |bytes| ==> bytes[i] in hs && bytes[i] !in todo && cs[i] == hs[bytes[i]].node
        invariant forall i, j :: 0 <= i < j < |bytes| ==> bytes[i] != bytes[j]
        invariant forall b :: b in hs ==> b in todo || b in bytes
        decreases todo
      {
        var b :| b in todo;
        ReachOfBranch(hs, b);
        var child := tr.LoadNodeFromDB(hs[b], Reach(tr.root));
        cs := cs + [child.value];
        bytes := bytes + [b];
        todo := todo - {b};
      }
    }

    /**
    The next key, never one returned before, with its value twice over; at the
    end, every key of the trie has been returned.
    */
    method Next() returns (key: Key, value: Value, more: bool)
      requires Valid()
      modifies this
      ensures Valid()
      ensures more == (|old(yielded)| < |Contents(tr.root).Keys|)
      ensures more ==> && key in Contents(tr.root) && key !in Elems(old(yielded))
                       && value == Contents(tr.root)[key] + Contents(tr.root)[key]
                       && yielded == old(yielded) + [key]
      ensures !more ==> yielded == old(yielded) && Elems(yielded) == Contents(tr.root).Keys
    {
      hide Contents, Reach, Elems, WellFormed, Covers, BranchRootTrie.Holds;
      while stack != []
        invariant Valid() && yielded == old(yielded)
        decreases Under(stack)
      {
        var size := |stack|;
        var node := stack[size - 1];
        var rest := stack[..size - 1];
        assert stack == rest + [node];
        if node.Leaf? {
          stack := rest;
          LeafReturned(rest, node, yielded, tr.root, tr.keyLength);
          LeafOfTrie(node, tr.root, tr.keyLength);
          key := node.key;
          value := node.value + node.value;
          more := true;
          RoomLeft(rest + [node], yielded, tr.root, tr.keyLength, key);
          yielded := yielded + [key];
          return;
        }
        UnderTop(rest, node, yielded, tr.root, tr.keyLength);
        var children, bytes := ChildNodes(node);
        ChildrenPushed(rest, node, bytes, children, yielded, tr.root, tr.keyLength);
        stack := rest + children;
      }
      AllReturned(yielded, tr.root, tr.keyLength);
      key, value, more := [], [], false;
    }
  }
}
