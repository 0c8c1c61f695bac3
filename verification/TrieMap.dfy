/**
A trie read as a finite map, and what every run of operations from the empty
trie makes of that map.
*/
module TrieMap {
  import opened TrieNodes
  import opened TrieOps
  import opened TrieCanonical

  /** No key has two entries. */
  lemma {:induction false} OneValuePerKey(n: Node, p: Key, len: nat, k: Key, v: Value, w: Value)
    requires Open(n, p, len) && (k, v) in Entries(n) && (k, w) in Entries(n)
    ensures v == w
    decreases n
  {
    match n
    case Leaf(_, _) =>
    case Extension(q, c) =>
      WellFormedIsOpen(c.node, p + q, len);
      OneValuePerKey(c.node, p + q, len, k, v, w);
    case Branch(hs) =>
      var a :| a in hs && (k, v) in Entries(hs[a].node);
      var b :| b in hs && (k, w) in Entries(hs[b].node);
      EntryByte(hs, p, len, a, (k, v));
      EntryByte(hs, p, len, b, (k, w));
      WellFormedIsOpen(hs[a].node, p + [a], len);
      OneValuePerKey(hs[a].node, p + [a], len, k, v, w);
  }

  /** The map a node stores. */
  ghost function Contents(n: Node): map<Key, Value> {
    map k | k in (set e | e in Entries(n) :: e.0) :: ValueOf(Entries(n), k)
  }

  ghost function ValueOf(s: set<Entry>, k: Key): (v: Value)
    requires k in (set e | e in s :: e.0)
    ensures (k, v) in s
  {
    var e :| e in s && e.0 == k;
    e.1
  }

  lemma ContentsItems(n: Node, p: Key, len: nat)
    requires Open(n, p, len)
    ensures forall e :: e in Entries(n) <==> e.0 in Contents(n) && Contents(n)[e.0] == e.1
  {
    forall e | e in Entries(n)
      ensures e.0 in Contents(n) && Contents(n)[e.0] == e.1
    {
      OneValuePerKey(n, p, len, e.0, e.1, Contents(n)[e.0]);
    }
  }

  /** The trie's three operations on the map it stores. */
  lemma UpsertIsUpdate(root: Node, key: Key, value: Value)
    requires IsRoot(root, |key|)
    ensures IsRoot(UpsertRoot(root, key, value), |key|)
    ensures Contents(UpsertRoot(root, key, value)) == Contents(root)[key := value]
  {
    UpsertRootMeans(root, key, value);
    ContentsItems(root, [], |key|);
    ContentsItems(UpsertRoot(root, key, value), [], |key|);
    SameItems(Contents(UpsertRoot(root, key, value)), Contents(root)[key := value]);
  }

  lemma DeleteIsRemove(root: Node, key: Key)
    requires IsRoot(root, |key|)
    ensures DeleteRoot(root, key).NotFound? <==> key !in Contents(root)
    ensures key in Contents(root) ==>
              && DeleteRoot(root, key).Kept? && IsRoot(DeleteRoot(root, key).node, |key|)
              && Contents(DeleteRoot(root, key).node) == Contents(root) - {key}
  {
    DeleteRootMeans(root, key);
    ContentsItems(root, [], |key|);
    assert HasKey(Entries(root), key) <==> key in Contents(root);
    if key in Contents(root) {
      var r := DeleteRoot(root, key).node;
      ContentsItems(r, [], |key|);
      SameItems(Contents(r), Contents(root) - {key});
    }
  }

  lemma SearchIsLookup(root: Node, key: Key)
    requires IsRoot(root, |key|) && OpenAt(root, key, 0)
    ensures match Search(root, key, 0)
            case None => key !in Contents(root)
            case Some(l) => l.Leaf? && key in Contents(root) && l.value == Contents(root)[key]
  {
    SearchFinds(root, key, 0);
    ContentsItems(root, [], |key|);
  }

  lemma SameItems(m: map<Key, Value>, n: map<Key, Value>)
    requires forall e: Entry :: (e.0 in m && m[e.0] == e.1) <==> (e.0 in n && n[e.0] == e.1)
    ensures m == n
  {
    forall k: Key
      ensures k in m <==> k in n
      ensures k in m && k in n ==> m[k] == n[k]
    {
      if k in m { assert (k, m[k]).0 in n; }
      if k in n { assert (k, n[k]).0 in m; }
    }
  }

  // ---- runs

  datatype Op = UpsertOp(key: Key, value: Value) | DeleteOp(key: Key)

  /** One operation on the trie; a key of the wrong length, or a missing one to delete, is refused. */
  ghost function Step(root: Node, len: nat, op: Op): Node
    requires IsRoot(root, len)
  {
    if |op.key| != len then root
    else match op
      case UpsertOp(k, v) => UpsertRoot(root, k, v)
      case DeleteOp(k) => if DeleteRoot(root, k).Kept? then DeleteRoot(root, k).node else root
  }

  /** The same operation on a plain map. */
  function StepMap(m: map<Key, Value>, len: nat, op: Op): map<Key, Value> {
    if |op.key| != len then m
    else match op
      case UpsertOp(k, v) => m[k := v]
      case DeleteOp(k) => m - {k}
  }

  function RunMap(len: nat, ops: seq<Op>): map<Key, Value> {
    if ops == [] then map[] else StepMap(RunMap(len, ops[..|ops| - 1]), len, ops[|ops| - 1])
  }

  ghost function Run(len: nat, ops: seq<Op>): (root: Node)
    requires len > 0
    ensures IsRoot(root, len)
  {
    if ops == [] then EMPTY_ROOT
    else
      var before := Run(len, ops[..|ops| - 1]);
      StepKeepsRoot(before, len, ops[|ops| - 1]);
      Step(before, len, ops[|ops| - 1])
  }

  lemma StepKeepsRoot(root: Node, len: nat, op: Op)
    requires IsRoot(root, len)
    ensures IsRoot(Step(root, len, op), len)
    ensures Contents(Step(root, len, op)) == StepMap(Contents(root), len, op)
  {
    if |op.key| == len {
      match op
      case UpsertOp(k, v) => UpsertIsUpdate(root, k, v);
      case DeleteOp(k) => DeleteIsRemove(root, k);
    }
  }

  /** After every run from the empty trie, the trie stores the map the run makes of the empty map. */
  lemma {:induction false} RunIsTheMap(len: nat, ops: seq<Op>)
    requires len > 0
    ensures Contents(Run(len, ops)) == RunMap(len, ops)
  {
    if ops == [] {
      assert Contents(EMPTY_ROOT) == map[];
    } else {
      RunIsTheMap(len, ops[..|ops| - 1]);
      StepKeepsRoot(Run(len, ops[..|ops| - 1]), len, ops[|ops| - 1]);
    }
  }

  /** Whatever the two histories: the same map, the same shape; the same root hash, the same map. */
  lemma HistoriesAgree(len: nat, ops: seq<Op>, others: seq<Op>)
    requires len > 0
    ensures RunMap(len, ops) == RunMap(len, others) <==> Erase(Run(len, ops)) == Erase(Run(len, others))
    ensures HashOf(Run(len, ops)) == HashOf(Run(len, others)) ==> RunMap(len, ops) == RunMap(len, others)
  {
    var m, n := Run(len, ops), Run(len, others);
    RunIsTheMap(len, ops);
    RunIsTheMap(len, others);
    ContentsItems(m, [], len);
    ContentsItems(n, [], len);
    ShapeIsTheMap(m, n, len);
    if Contents(m) == Contents(n) { assert Entries(m) == Entries(n); }
  }
}
