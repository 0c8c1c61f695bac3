/** The block store as an object (blockchain/blockdao.go): its store, and caches in front of it. */
module BlockDao {
  import opened Options
  import opened BlockIndex

  /** A cache answers only what the store would. */
  ghost predicate Honest<V>(cache: map<BlockHash, V>, stored: map<BlockHash, V>) {
    forall h :: h in cache ==> h in stored && cache[h] == stored[h]
  }

  /** A least-recently-used cache keeps the newest entry and may drop any others. */
  method Remember<V>(cache: map<BlockHash, V>, h: BlockHash, v: V) returns (after: map<BlockHash, V>)
    ensures h in after && after[h] == v
    ensures forall k :: k in after && k != h ==> k in cache && after[k] == cache[k]
  {
    var dropped: set<BlockHash> :| dropped <= cache.Keys;
    after := (cache - dropped)[h := v];
  }

  method ReadPart<V>(caching: bool, cache: map<BlockHash, V>, stored: map<BlockHash, V>, h: BlockHash)
    returns (part: Option<V>, after: map<BlockHash, V>)
    requires Honest(cache, stored)
    ensures Honest(after, stored)
    ensures part == if h in stored then Some(stored[h]) else None
  {
    after := cache;
    if caching && h in cache {
      return Some(cache[h]), after;
    }
    if h !in stored {
      return None, after;
    }
    part := Some(stored[h]);
    if caching {
      after := Remember(cache, h, stored[h]);
    }
  }

  ghost predicate AllWellAddressed(chain: seq<Block>) {
    forall b :: b in chain ==> WellAddressed(b.acts)
  }

  /**
  Index entries of a deleted block are left over for exactly the addresses that occur more than twice on a side
  of it.
  */
  ghost predicate CleanWhereRare(before: Store, after: Store, acts: seq<Act>) {
    forall side, a :: Clean(before, after, side, a) <==> |ScanActs(acts, side, a)| <= 2
  }

  /** The places of an address that are emptied lie 0, 1, 3, 6, ... above its count, one for each time it occurs. */
  ghost predicate LeftOver(before: Store, after: Store, acts: seq<Act>) {
    forall side, a, i: nat :: (side, a, i) in after.entries <==>
      && (side, a, i) in before.entries
      && !exists k: nat :: k < |ScanActs(acts, side, a)| && 2 * (i - CountOf(after, side, a)) == Pronic(k)
  }

  class BlockDAO {
    var store: Store
    const caching: bool
    var headerCache: map<BlockHash, Header>
    var bodyCache: map<BlockHash, seq<Act>>
    var footerCache: map<BlockHash, nat>
    ghost var chain: seq<Block>

    ghost predicate HonestCaches()
      reads this
    {
      Honest(headerCache, store.headers) && Honest(bodyCache, store.bodies) && Honest(footerCache, store.footers)
    }

    /** The index agrees with a scan of the chain, and the caches with the store. */
    ghost predicate Valid()
      reads this
    {
      Agrees(store, chain) && AllWellAddressed(chain) && HonestCaches()
    }

    /** An empty store, started: height and total are 0. */
    constructor (caching: bool)
      ensures Valid() && chain == []
    {
      this.caching := caching;
      store := Store(0, 0, map[], map[], map[], map[], map[], map[], map[]);
      headerCache, bodyCache, footerCache := map[], map[], map[];
      chain := [];
    }

    method GetBlockHash(height: nat) returns (r: Option<BlockHash>)
      requires Valid()
      ensures r == if height == 0 then Some(ZeroHash)
                   else if height <= |chain| then Some(HashOf(chain[height - 1].header))
                   else None
    {
      assert RightHash(store, chain, height);
      if height == 0 {
        return Some(ZeroHash);
      }
      r := if height in store.hashes then Some(store.hashes[height]) else None;
    }

    method GetBlockHeight(h: BlockHash) returns (r: Option<nat>)
      requires Valid()
      ensures r.Some? <==> exists i :: 0 <= i < |chain| && HashOf(chain[i].header) == h
      ensures r.Some? ==> 1 <= r.value <= |chain| && HashOf(chain[r.value - 1].header) == h
    {
      assert RightBlock(store, chain, h);
      r := if h in store.heights then Some(store.heights[h]) else None;
    }

    method GetBlockchainHeight() returns (n: nat)
      requires Valid()
      ensures n == |chain|
    {
      n := store.top;
    }

    method GetTotalActions() returns (n: nat)
      requires Valid()
      ensures n == Total(chain)
    {
      n := store.total;
    }

    /** How many actions an address sent or received; an address never seen has none. */
    method GetActionCount(side: Side, a: Address) returns (n: nat)
      requires Valid()
      ensures n == |Scan(chain, side, a)|
    {
      assert Shows(store, side, a, Scan(chain, side, a));
      n := CountOf(store, side, a);
    }

    /** A block is read part by part, each through its cache. */
    method GetBlock(h: BlockHash) returns (r: Option<Block>)
      requires Valid()
      modifies this`headerCache, this`bodyCache, this`footerCache
      ensures Valid()
      ensures r.Some? <==> exists i :: 0 <= i < |chain| && HashOf(chain[i].header) == h
      ensures r.Some? ==> r.value in chain && HashOf(r.value.header) == h
    {
      hide Agrees;
      assert RightBlock(store, chain, h) by { HashIsRight(h); }
      assert InChain(h, chain) <==> exists i :: 0 <= i < |chain| && HashOf(chain[i].header) == h by { HashIsRight(h); }
      var header, body, footer;
      header, headerCache := ReadPart(caching, headerCache, store.headers, h);
      if header.None? {
        return None;
      }
      body, bodyCache := ReadPart(caching, bodyCache, store.bodies, h);
      if body.None? {
        return None;
      }
      footer, footerCache := ReadPart(caching, footerCache, store.footers, h);
      if footer.None? {
        return None;
      }
      r := Some(Block(header.value, body.value, footer.value));
      assert r.value == chain[h.header.height - 1];
    }

    lemma HashIsRight(h: BlockHash)
      requires Agrees(store, chain)
      ensures RightBlock(store, chain, h)
      ensures InChain(h, chain) <==> exists i :: 0 <= i < |chain| && HashOf(chain[i].header) == h
    {
    }

    method GetActionsByAddress(side: Side, a: Address) returns (acts: seq<ActHash>)
      requires Valid()
      ensures acts == Scan(chain, side, a)
      ensures forall x :: x in acts <==> exists b :: b in chain && HasAct(b.acts, side, a, x)
    {
      forall x ensures x in Scan(chain, side, a) <==> exists b :: b in chain && HasAct(b.acts, side, a, x) {
        ScanHas(chain, side, a, x);
      }
      hide HasAct;
      ghost var list := Scan(chain, side, a);
      assert Shows(store, side, a, list);
      acts := [];
      var count := GetActionCount(side, a);
      for i := 0 to count
        invariant acts == list[..i]
      {
        acts := acts + [store.entries[(side, a, i)]];
      }
    }

    /**
    A block on top of the chain; one with a malformed destination is refused and nothing is written.
    A block at another height is written all the same, and the index is right for some chain then only
    if it was in the chain already and has no actions.
    */
    method PutBlock(b: Block) returns (ok: bool)
      requires Valid()
      modifies this`store, this`chain
      ensures ok <==> forall x :: x in b.acts ==> x.dst != Malformed
      ensures store == if ok then PutActs(WithBlock(old(store), b), b.acts) else old(store)
      ensures !ok ==> Valid() && chain == old(chain)
      ensures ok && b.header.height == |old(chain)| + 1 ==> Valid() && chain == old(chain) + [b]
      ensures ok && SameActs(b, old(chain)) ==> ((exists c :: Agrees(store, c)) <==> FitsChain(b, old(chain)))
    {
      var h := HashOf(b.header);
      var batch := [PutParts(h, b), PutHeight(h, b.header.height), PutHash(b.header.height, h)];
      if b.header.height > store.top {
        batch := batch + [PutTop(b.header.height)];
      }
      batch := batch + [PutTotal(store.total + |b.acts|)];
      assert batch == PutWrites(store, b);
      PushBatch(store, b);
      NothingTracked(store, b);
      hide ApplyAll, Agrees, PutActs, WithBlock, Tracks, FitsChain, PutWrites;
      ok, batch := PutActions(store, b.acts, batch);
      if ok {
        if SameActs(b, chain) { PutAgreesIff(store, chain, b, ApplyAll(store, batch)); }
        if b.header.height == |chain| + 1 {
          PushAgrees(store, chain, b);
          StillHonest(b);
          chain := chain + [b];
        }
        store := ApplyAll(store, batch);
      }
    }

    lemma StillHonest(b: Block)
      requires HonestCaches() && Agrees(store, chain) && b.header.height == |chain| + 1
      ensures var v := PutActs(WithBlock(store, b), b.acts);
              Honest(headerCache, v.headers) && Honest(bodyCache, v.bodies) && Honest(footerCache, v.footers)
    {
      PutActsElsewhere(WithBlock(store, b), b.acts);
      assert RightBlock(store, chain, HashOf(b.header));
    }

    /** The tip block goes, with its index entries and its cache entries; an empty chain is an error. */
    method DeleteTipBlock() returns (ok: bool)
      requires Valid()
      modifies this
      ensures Valid()
      ensures ok <==> old(chain) != []
      ensures chain == if ok then old(chain)[..|old(chain)| - 1] else old(chain)
      ensures ok ==> CleanWhereRare(old(store), store, old(chain)[|old(chain)| - 1].acts)
      ensures ok ==> LeftOver(old(store), store, old(chain)[|old(chain)| - 1].acts)
    {
      hide Agrees, ApplyAll, WithoutBlock, TakenBack, CleanWhereRare, LeftOver, PopWrites, AllWellAddressed;
      TopAndTotal();
      var tip := GetBlockHash(store.top);
      var got := GetBlock(tip.value);
      assert chain != [] ==> HashOf(chain[|chain| - 1].header) == tip.value;
      if got.None? {
        return false;
      }
      var b := got.value;
      ghost var rest := TipIsLast(tip.value, b);
      headerCache := headerCache - {tip.value};
      bodyCache := bodyCache - {tip.value};
      footerCache := footerCache - {tip.value};
      CountsSuffice(store, rest, b);
      var batch := [DeleteParts(tip.value), DeleteHeight(tip.value), DeleteHash(store.top), PutTop(store.top - 1),
                    PutTotal(store.total - |b.acts|)];
      assert batch == PopWrites(store, b) by { PopWritesIs(store, b); }
      PopBatch(store, b);
      ok, batch := DeleteActions(store, b.acts, batch);
      PopAgrees(store, rest, b, ApplyAll(store, batch));
      StoreKept(b, ApplyAll(store, batch));
      RareIsClean(b, ApplyAll(store, batch));
      store := ApplyAll(store, batch);
      chain := rest;
    }

    lemma RareIsClean(b: Block, v: Store)
      requires Agrees(store, chain) && store.top > 0 && store.total >= |b.acts|
      requires TakenBack(store, WithoutBlock(store, b), v, b.acts)
      ensures CleanWhereRare(store, v, b.acts) && LeftOver(store, v, b.acts)
    {
      LeftOverIs(b, v);
      hide HoldsBlocks, TakenBack, Clean, ScanActs, LeftOver;
      forall side, a ensures Clean(store, v, side, a) <==> |ScanActs(b.acts, side, a)| <= 2 {
        assert Shows(store, side, a, Scan(chain, side, a));
        CleanIff(store, WithoutBlock(store, b), v, b.acts, side, a, Scan(chain, side, a));
      }
    }

    lemma LeftOverIs(b: Block, v: Store)
      requires store.top > 0 && store.total >= |b.acts| && TakenBack(store, WithoutBlock(store, b), v, b.acts)
      ensures LeftOver(store, v, b.acts)
    {
      hide ScanActs, CountOf, Hit;
      forall side, a, i: nat
        ensures (side, a, i) in v.entries <==>
                && (side, a, i) in store.entries
                && !exists k: nat :: k < |ScanActs(b.acts, side, a)| && 2 * (i - CountOf(v, side, a)) == Pronic(k)
      {
        HitIff(CountOf(v, side, a), |ScanActs(b.acts, side, a)|, i);
        assert Emptied(WithoutBlock(store, b), v, b.acts, side, a, i);
      }
    }

    lemma TopAndTotal()
      requires Agrees(store, chain)
      ensures store.top == |chain| && store.total == Total(chain)
    {
    }

    lemma TipIsLast(h: BlockHash, b: Block) returns (rest: seq<Block>)
      requires Agrees(store, chain) && AllWellAddressed(chain) && b in chain && HashOf(b.header) == h
      requires h == if chain == [] then ZeroHash else HashOf(chain[|chain| - 1].header)
      ensures chain == rest + [b] && rest == chain[..|chain| - 1] && WellAddressed(b.acts) && AllWellAddressed(rest)
    {
      rest := chain[..|chain| - 1];
      assert b == chain[|chain| - 1];
    }

    lemma PopWritesIs(s: Store, b: Block)
      requires s.top > 0 && s.total >= |b.acts|
      ensures PopWrites(s, b) == [DeleteParts(HashOf(b.header)), DeleteHeight(HashOf(b.header)), DeleteHash(s.top),
                                  PutTop(s.top - 1), PutTotal(s.total - |b.acts|)]
    {
    }

    lemma StoreKept(b: Block, v: Store)
      requires store.top > 0 && store.total >= |b.acts| && TakenBack(store, WithoutBlock(store, b), v, b.acts)
      requires HonestCaches() && HashOf(b.header) !in headerCache && HashOf(b.header) !in bodyCache
          && HashOf(b.header) !in footerCache
      ensures Honest(headerCache, v.headers) && Honest(bodyCache, v.bodies) && Honest(footerCache, v.footers)
    {
    }
  }

  /** Three actions of one sender in a block: once it is deleted, an entry of the index is left behind. */
  method EntryStays(a: Address, x: ActHash, y: ActHash, z: ActHash) returns (dao: BlockDAO)
    ensures fresh(dao) && dao.Valid() && dao.chain == []
    ensures exists i :: (Sender, a, i) in dao.store.entries
  {
    hide BlockDAO.Valid, Agrees;
    var acts := [Act(x, a, Nowhere), Act(y, a, Nowhere), Act(z, a, Nowhere)];
    dao := new BlockDAO(false);
    var put := dao.PutBlock(Block(Header(1, 0), acts, 0));
    ThreeSent(a, x, y, z);
    var ok := dao.DeleteTipBlock();
  }

  lemma ThreeSent(a: Address, x: ActHash, y: ActHash, z: ActHash)
    ensures |ScanActs([Act(x, a, Nowhere), Act(y, a, Nowhere), Act(z, a, Nowhere)], Sender, a)| == 3
  {
    var acts := [Act(x, a, Nowhere), Act(y, a, Nowhere), Act(z, a, Nowhere)];
    assert acts[..2][..1] == acts[..1] && acts[..1][..0] == [];
    assert |ScanActs(acts[..1], Sender, a)| == 1;
    assert |ScanActs(acts[..2], Sender, a)| == 2;
  }
}
