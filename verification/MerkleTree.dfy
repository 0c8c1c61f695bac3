/** The Merkle root of a list of hashes (crypto/merkle.go), computed level by level in place. */
module MerkleTree {
  import opened Options
  import opened Counting

  /** A hash: all zeroes, of something else, or of two hashes in a row. */
  datatype Hash = Zero | Leaf(id: nat) | Pair(left: Hash, right: Hash)

  // ---- the definition

  /** A level of odd length has its last hash twice. */
  function Padded(level: seq<Hash>): (p: seq<Hash>)
    ensures |p| % 2 == 0 && level <= p
  {
    if |level| % 2 == 1 then level + [level[|level| - 1]] else level
  }

  function Paired(level: seq<Hash>): (p: seq<Hash>)
    requires |level| % 2 == 0
    ensures |p| == |level| / 2
  {
    seq(|level| / 2, i requires 0 <= i < |level| / 2 => Pair(level[2 * i], level[2 * i + 1]))
  }

  function Root(level: seq<Hash>): Hash
    requires level != []
    decreases |level|
  {
    if |level| == 1 then level[0] else Root(Paired(Padded(level)))
  }

  // ---- what a root says about its leaves

  lemma PairedTells(a: seq<Hash>, b: seq<Hash>)
    requires |a| == |b| && |a| % 2 == 0 && Paired(a) == Paired(b)
    ensures a == b
  {
    forall i | 0 <= i < |a| ensures a[i] == b[i] {
      assert Paired(a)[i / 2] == Paired(b)[i / 2];
    }
  }

  /** Two lists of one length with the same root are the same list. */
  lemma {:induction false} RootTells(a: seq<Hash>, b: seq<Hash>)
    requires |a| == |b| > 0 && Root(a) == Root(b)
    ensures a == b
    decreases |a|
  {
    if |a| > 1 {
      RootTells(Paired(Padded(a)), Paired(Padded(b)));
      PairedTells(Padded(a), Padded(b));
      assert a == Padded(a)[..|a|] && b == Padded(b)[..|b|];
    } else {
      assert a == [a[0]] && b == [b[0]];
    }
  }

  // ---- lists of different lengths

  /** Without the last hash twice, or with it: the root of a list of odd length is the same. */
  lemma PaddingDoesNotShow(level: seq<Hash>)
    requires |level| > 1
    ensures |level| % 2 == 1 ==> Root(level + [level[|level| - 1]]) == Root(level)
  {
    var more := level + [level[|level| - 1]];
    assert |level| % 2 == 1 ==> Padded(more) == more == Padded(level);
  }

  /** The root of a list of even length is the root of the hashes of its pairs. */
  lemma RootOfPairs(level: seq<Hash>, pairs: seq<Hash>)
    requires |level| == 2 * |pairs| > 0
    requires forall i :: 0 <= i < |pairs| ==> pairs[i] == Pair(level[2 * i], level[2 * i + 1])
    ensures Root(level) == Root(pairs)
  {
    assert Paired(Padded(level)) == pairs;
  }

  /** A single hash is its own root, and these three laws leave one function only. */
  lemma {:induction false} RootIsTheOnly(root: seq<Hash> -> Hash, level: seq<Hash>)
    requires forall h :: root([h]) == h
    requires forall l: seq<Hash> :: |l| > 1 && |l| % 2 == 1 ==> root(l + [l[|l| - 1]]) == root(l)
    requires forall l: seq<Hash>, p: seq<Hash> :: |l| == 2 * |p| > 0 && IsPairs(p, l) ==> root(l) == root(p)
    requires level != []
    ensures root(level) == Root(level)
    decreases (|level| + 1) / 2, 1
  {
    if |level| == 1 {
      assert level == [level[0]];
    } else if |level| % 2 == 1 {
      var more := level + [level[|level| - 1]];
      PaddingDoesNotShow(level);
      PairsOnly(root, more);
    } else {
      PairsOnly(root, level);
    }
  }

  ghost predicate IsPairs(pairs: seq<Hash>, level: seq<Hash>)
    requires |level| == 2 * |pairs|
  {
    forall i :: 0 <= i < |pairs| ==> pairs[i] == Pair(level[2 * i], level[2 * i + 1])
  }

  lemma {:induction false} PairsOnly(root: seq<Hash> -> Hash, level: seq<Hash>)
    requires forall h :: root([h]) == h
    requires forall l: seq<Hash> :: |l| > 1 && |l| % 2 == 1 ==> root(l + [l[|l| - 1]]) == root(l)
    requires forall l: seq<Hash>, p: seq<Hash> :: |l| == 2 * |p| > 0 && IsPairs(p, l) ==> root(l) == root(p)
    requires |level| % 2 == 0 && |level| > 0
    ensures root(level) == Root(level)
    decreases |level| / 2, 0
  {
    var pairs := Paired(level);
    assert IsPairs(pairs, level);
    RootOfPairs(level, pairs);
    if |pairs| == 1 {
      assert pairs == [pairs[0]];
    } else {
      RootIsTheOnly(root, pairs);
    }
  }

  /** Nor does it show whether a hash in the list was itself made from two: one root for lists of one and of two. */
  lemma PairsDoNotShow(x: Hash, y: Hash)
    requires x != y
    ensures Distinct([Pair(x, y)]) && Distinct([x, y]) && Root([Pair(x, y)]) == Root([x, y])
  {
    assert Padded([x, y]) == [x, y] && Paired([x, y]) == [Pair(x, y)];
  }

  /** What a hash was made from, down to hashes that are no pairs. */
  ghost function Fringe(h: Hash): set<Hash> {
    match h
    case Pair(l, r) => Fringe(l) + Fringe(r)
    case _ => {h}
  }

  ghost predicate Under(x: Hash, level: seq<Hash>) {
    exists i :: 0 <= i < |level| && x in Fringe(level[i])
  }

  lemma NextLevelUnder(x: Hash, level: seq<Hash>)
    ensures Under(x, Paired(Padded(level))) <==> Under(x, level)
  {
    var p := Padded(level);
    var next := Paired(p);
    if Under(x, next) {
      var i :| 0 <= i < |next| && x in Fringe(next[i]);
      var k := if x in Fringe(p[2 * i]) then 2 * i else 2 * i + 1;
      assert x in Fringe(level[if k < |level| then k else k - 1]);
    }
    if Under(x, level) {
      var k :| 0 <= k < |level| && x in Fringe(level[k]);
      assert p[k] == level[k] && next[k / 2] == Pair(p[2 * (k / 2)], p[2 * (k / 2) + 1]);
      assert x in Fringe(next[k / 2]);
    }
  }

  lemma {:induction false} RootIsMadeOf(x: Hash, level: seq<Hash>)
    requires level != []
    ensures x in Fringe(Root(level)) <==> Under(x, level)
    decreases |level|
  {
    if |level| > 1 {
      RootIsMadeOf(x, Paired(Padded(level)));
      NextLevelUnder(x, level);
    } else if x in Fringe(level[0]) {
      assert Under(x, level);
    }
  }

  ghost predicate NoPairs(level: seq<Hash>) {
    forall h :: h in level ==> !h.Pair?
  }

  lemma RootHasMembers(level: seq<Hash>)
    requires level != [] && NoPairs(level)
    ensures Fringe(Root(level)) == Elems(level)
  {
    forall x ensures x in Fringe(Root(level)) <==> x in Elems(level) {
      RootIsMadeOf(x, level);
      if x in level {
        var i :| 0 <= i < |level| && level[i] == x;
        assert x in Fringe(level[i]);
      }
    }
  }

  /**
  Lists that repeat no hash and hold no hash of a pair have the same root exactly if they are the same, whatever
  their lengths.
  */
  lemma RootIffList(a: seq<Hash>, b: seq<Hash>)
    requires a != [] && b != [] && NoPairs(a) && NoPairs(b) && Distinct(a) && Distinct(b)
    ensures Root(a) == Root(b) <==> a == b
  {
    if Root(a) == Root(b) {
      RootHasMembers(a);
      RootHasMembers(b);
      DistinctCount(a);
      DistinctCount(b);
      RootTells(a, b);
    }
  }

  // ---- the computation

  class Merkle {
    var root: Hash
    var leaf: seq<Hash>
    var size: nat
    ghost const leaves: seq<Hash>

    ghost predicate Valid()
      reads this
    {
      && leaves != []
      && (root == Zero || root == Root(leaves))
      && (if |leaves| == 1 then size == 1 && root == leaves[0] else size == |leaf| && leaf == Padded(leaves))
    }

    /** A tree over a list of leaves; an empty list has none. */
    static method NewMerkleTree(leaves: seq<Hash>) returns (mk: Merkle?)
      ensures mk == null <==> leaves == []
      ensures mk != null ==> fresh(mk) && mk.Valid() && mk.leaves == leaves
    {
      if leaves == [] {
        return null;
      }
      mk := new Merkle(leaves);
    }

    constructor (leaves: seq<Hash>)
      requires leaves != []
      ensures Valid() && this.leaves == leaves
    {
      var n := |leaves|;
      var room := (n + 1) / 2 * 2;
      this.leaves := leaves;
      size := n;
      root := Zero;
      var copied := leaves + seq(room - n, _ => Zero);
      if n == 1 {
        root := copied[0];
      } else if n != room {
        copied := copied[n := copied[n - 1]];
        size := room;
      }
      leaf := copied;
    }

    /**
    The root, computed once. A single all-zero leaf is taken for a root not
    computed yet; there is then no level to take a root from, and the call
    fails with an index out of range.
    */
    method HashTree() returns (r: Option<Hash>)
      requires Valid()
      modifies this`root
      ensures Valid()
      ensures r == if leaves == [Zero] then None else Some(Root(leaves))
      ensures leaves != [Zero] ==> root == Root(leaves)
    {
      if root != Zero {
        assert leaves != [Zero];
        return Some(root);
      }
      var length := size / 2;
      if length == 0 {
        assert leaves == [leaves[0]];
        return None;
      }
      var merkle := new Hash[length + 1](_ => Zero);
      for i := 0 to length
        invariant forall k :: 0 <= k < i ==> merkle[k] == Pair(leaf[2 * k], leaf[2 * k + 1])
      {
        merkle[i] := Pair(leaf[2 * i], leaf[2 * i + 1]);
      }
      assert merkle[..length] == Paired(Padded(leaves));
      while length > 1
        invariant 0 < length < merkle.Length
        invariant Root(merkle[..length]) == Root(leaves)
        decreases length
      {
        length := FoldLevel(merkle, length);
      }
      root := merkle[0];
      r := Some(root);
    }
  }

  /** One level overwritten by the next, in the same array. */
  method FoldLevel(merkle: array<Hash>, n: nat) returns (length: nat)
    requires 1 < n < merkle.Length
    modifies merkle
    ensures 0 < length < n && merkle[..length] == Paired(Padded(old(merkle[..n])))
    ensures length == (n + 1) / 2 && forall i :: 0 <= i < length ==>
              merkle[i] == Pair(old(merkle[2 * i]), old(merkle[if 2 * i + 1 < n then 2 * i + 1 else n - 1]))
  {
    length := n;
    if length % 2 != 0 {
      merkle[length] := merkle[length - 1];
      length := length + 1;
    }
    assert merkle[..length] == Padded(old(merkle[..n]));
    length := FoldPairs(merkle, length);
  }

  method FoldPairs(merkle: array<Hash>, n: nat) returns (length: nat)
    requires n % 2 == 0 && n <= merkle.Length
    modifies merkle
    ensures length == n / 2 && merkle[..length] == Paired(old(merkle[..n]))
  {
    length := n / 2;
    ghost var next := Paired(merkle[..n]);
    for i := 0 to length
      invariant forall k :: 0 <= k < i ==> merkle[k] == next[k]
      invariant forall k :: 2 * i <= k < n ==> merkle[k] == old(merkle[k])
    {
      assert next[i] == Pair(merkle[2 * i], merkle[2 * i + 1]);
      merkle[i] := Pair(merkle[2 * i], merkle[2 * i + 1]);
    }
  }
}
