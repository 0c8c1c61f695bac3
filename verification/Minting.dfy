/** From the pool to a block (blockchain/blockchain.go): the actions a producer picks and runs. */
module Minting {
  import opened Options
  import opened Actions
  import opened ActQueueSpec
  import opened ActPoolSpec
  import opened ActPools
  import opened ActionIteration
  import opened NonceValidation
  import opened Heaps

  /** Actions of the protocol itself, put at the end of a block, have nonce 0. */
  ghost predicate AllZero(acts: seq<Action>) {
    forall x :: x in acts ==> x.nonce == 0
  }

  lemma {:induction false} ZeroesDoNotShow(acts: seq<Action>, zeroes: seq<Action>)
    requires AllZero(zeroes)
    ensures NonZero(acts + zeroes) == NonZero(acts)
    decreases |zeroes|
  {
    if zeroes == [] {
      assert acts + zeroes == acts;
    } else {
      var most := zeroes[..|zeroes| - 1];
      assert zeroes[|zeroes| - 1] in zeroes && forall x :: x in most ==> x in zeroes;
      ZeroesDoNotShow(acts, most);
      assert (acts + zeroes)[..|acts + zeroes| - 1] == acts + most;
    }
  }

  lemma {:induction false} NoneIsZero(acts: seq<Action>)
    requires forall x :: x in acts ==> x.nonce != 0
    ensures NonZero(acts) == acts
  {
    if acts != [] {
      var most, last := acts[..|acts| - 1], acts[|acts| - 1];
      assert acts == most + [last];
      assert last in acts;
      NoneIsZero(most);
    }
  }

  /** What an iterator has yielded came from the lists it was given. */
  lemma YieldedNotZero(yielded: seq<Action>, left: Offers, dropped: set<Address>, offered: Offers,
                       queues: map<Address, Items>, chain: Chain)
    requires InOrder(offered, yielded, left, dropped) && OffersRuns(offered, queues, chain)
    ensures forall x :: x in yielded ==> x.nonce != 0
  {
    hide Of, RunFrom;
    forall x | x in yielded ensures x.nonce != 0 {
      var a := x.sender;
      InOf(yielded, x);
      InRun(x, Of(yielded, a), offered[a][|Of(yielded, a)|..], queues[a], chain.Nonce(a) + 1);
    }
  }

  lemma InRun(x: Action, acts: seq<Action>, rest: seq<Action>, items: Items, n: nat)
    requires x in acts && acts + rest == RunFrom(items, n) && n > 0 && forall k :: k in items ==> items[k].nonce == k
    ensures x.nonce != 0
  {
    hide RunFrom;
    var i :| 0 <= i < |acts| && acts[i] == x;
    assert (acts + rest)[i] == x;
    RunNonces(items, n, i);
  }

  lemma {:induction false} InOf(acts: seq<Action>, x: Action)
    requires x in acts
    ensures x in Of(acts, x.sender)
  {
    var most, last := acts[..|acts| - 1], acts[|acts| - 1];
    if x != last {
      assert acts == most + [last];
      InOf(most, x);
    }
  }

  // ---- when a skipped action leaves no gap

  /**
  An action that hits the limit is its account's last, or the next one has a higher price than anything the other
  accounts offer.
  */
  ghost predicate SkipsEndAccounts(offered: Offers, hitsLimit: Action -> bool) {
    forall a, i :: a in offered && 0 <= i < |offered[a]| && hitsLimit(offered[a][i]) ==> EndsAt(offered, a, i + 1)
  }

  ghost predicate EndsAt(offered: Offers, a: Address, i: nat)
    requires a in offered && i <= |offered[a]|
  {
    i == |offered[a]| || forall b, y :: b in offered && b != a && y in offered[b] ==> y.price < offered[a][i].price
  }

  /** Nothing is left of an account whose action was skipped, and nothing of it came after that. */
  ghost predicate EndedBySkip(yielded: seq<Action>, left: Offers, hitsLimit: Action -> bool) {
    forall a, i :: a in left && 0 <= i < |Of(yielded, a)| && hitsLimit(Of(yielded, a)[i]) ==>
      i == |Of(yielded, a)| - 1 && left[a] == []
  }

  lemma NothingSkipped(left: Offers, hitsLimit: Action -> bool)
    ensures EndedBySkip([], left, hitsLimit)
  {
  }

  lemma EndedHasNoGap(yielded: seq<Action>, left: Offers, hitsLimit: Action -> bool, offered: Offers,
                      dropped: set<Address>)
    requires EndedBySkip(yielded, left, hitsLimit) && InOrder(offered, yielded, left, dropped)
    ensures NoAccountAfterSkip(yielded, hitsLimit)
  {
    hide Of;
    forall a ensures NoneAfterSkip(Of(yielded, a), hitsLimit) {
      if a !in left { NoneOf(yielded, a); }
    }
  }

  lemma {:induction false} NoneOf(acts: seq<Action>, a: Address)
    requires forall x :: x in acts ==> x.sender != a
    ensures Of(acts, a) == []
  {
    if acts != [] {
      NoneOf(acts[..|acts| - 1], a);
    }
  }

  /** One more action, after which its account is ended if it was skipped. */
  lemma OneMoreEnded(yielded: seq<Action>, left: Offers, x: Action, after: Offers, hitsLimit: Action -> bool)
    requires EndedBySkip(yielded, left, hitsLimit) && x.sender in left && left[x.sender] != []
    requires after.Keys == left.Keys && forall a :: a in left && a != x.sender ==> after[a] == left[a] || after[a] == []
    requires hitsLimit(x) ==> after[x.sender] == []
    ensures EndedBySkip(yielded + [x], after, hitsLimit)
  {
    hide Of;
    forall a | a in after ensures Of(yielded + [x], a) == Of(yielded, a) + if x.sender == a then [x] else [] {
      OfAppend(yielded, x, a);
    }
  }

  /** The account that is popped after a skipped action is its own, unless that has nothing left. */
  lemma PopsItself(offered: Offers, yielded: seq<Action>, left: Offers, dropped: set<Address>, x: Action, b: Address,
                   hitsLimit: Action -> bool)
    requires SkipsEndAccounts(offered, hitsLimit) && InOrder(offered, yielded, left, dropped) && hitsLimit(x)
    requires x.sender in left && left[x.sender] != [] && left[x.sender][0] == x
    requires var mid := left[x.sender := left[x.sender][1..]];
             b in mid && mid[b] != [] && IsBest(mid, mid[b][0])
    ensures b == x.sender || |left[x.sender]| == 1
  {
    hide Of;
    var a := x.sender;
    var i := |Of(yielded, a)|;
    assert offered[a] == Of(yielded, a) + left[a];
    assert offered[a][i] == x && EndsAt(offered, a, i + 1);
    var mid := left[a := left[a][1..]];
    assert |left[a]| > 1 ==> mid[a][0] == offered[a][i + 1] && mid[a] != [];
    if b != a {
      assert offered[b] == Of(yielded, b) + left[b];
      assert offered[b][|Of(yielded, b)|] == mid[b][0];
    }
  }

  // ---- picking

  ghost predicate AllTaken(left: Offers) {
    forall a :: a in left ==> left[a] == []
  }

  /**
  One action taken: the next of its account, and no account's next has a higher price. If it hits the limit, one
  account is dropped with all that is left of it, again one whose next action has the highest price then.
  */
  ghost predicate Round(before: Offers, x: Action, after: Offers, hitsLimit: Action -> bool) {
    && x.sender in before && before[x.sender] != [] && before[x.sender][0] == x && IsBest(before, x)
    && var mid := before[x.sender := before[x.sender][1..]];
    if !hitsLimit(x) then after == mid
    else if AllTaken(mid) then after == mid
    else exists b :: b in mid && mid[b] != [] && IsBest(mid, mid[b][0]) && after == mid[b := []]
  }

  /** Round by round, from what was offered to what is left. */
  ghost predicate Picked(offered: Offers, yielded: seq<Action>, lefts: seq<Offers>, hitsLimit: Action -> bool) {
    && |lefts| == |yielded| + 1 && lefts[0] == offered
    && forall i :: 0 <= i < |yielded| ==> Round(lefts[i], yielded[i], lefts[i + 1], hitsLimit)
  }

  lemma PickedMore(offered: Offers, yielded: seq<Action>, lefts: seq<Offers>, hitsLimit: Action -> bool, x: Action,
                   after: Offers)
    requires Picked(offered, yielded, lefts, hitsLimit) && Round(lefts[|yielded|], x, after, hitsLimit)
    ensures Picked(offered, yielded + [x], lefts + [after], hitsLimit)
  {
    hide Round;
    var more, all := yielded + [x], lefts + [after];
    forall i | 0 <= i < |more| ensures Round(all[i], more[i], all[i + 1], hitsLimit) {
      assert i < |yielded| ==> Round(lefts[i], yielded[i], lefts[i + 1], hitsLimit);
    }
  }

  method PickOne(it: ActionIterator, hitsLimit: Action -> bool) returns (next: Option<Action>)
    requires it.Valid()
    modifies it
    ensures it.Valid()
    ensures next.None? ==>
              && it.yielded == old(it.yielded) && it.left == old(it.left) && it.dropped == old(it.dropped)
              && AllTaken(it.left)
              && forall a :: a in it.all && a !in it.dropped ==> Of(it.yielded, a) == it.all[a]
    ensures next.Some? ==>
              && it.yielded == old(it.yielded) + [next.value]
              && Round(old(it.left), next.value, it.left, hitsLimit) && !AllTaken(old(it.left))
              && if hitsLimit(next.value) then OneDropped(old(it.dropped), it.dropped, it.left)
                 else it.dropped == old(it.dropped)
  {
    hide IsHeap, Heads, OwnActions, Behind, InOrder, Of, IsBest;
    next := it.Next();
    if next.Some? && hitsLimit(next.value) {
      ghost var popped := it.PopAccount();
    }
  }

  /** One account more is dropped, unless nothing is left at all. */
  ghost predicate OneDropped(before: set<Address>, after: set<Address>, left: Offers) {
    before <= after && (|after| == |before| + 1 || (after == before && AllTaken(left)))
  }

  lemma RoundKeepsEnded(offered: Offers, yielded: seq<Action>, left: Offers, dropped: set<Address>, x: Action,
                        after: Offers, hitsLimit: Action -> bool)
    requires SkipsEndAccounts(offered, hitsLimit) && InOrder(offered, yielded, left, dropped)
    requires EndedBySkip(yielded, left, hitsLimit) && Round(left, x, after, hitsLimit)
    ensures EndedBySkip(yielded + [x], after, hitsLimit)
  {
    hide SkipsEndAccounts, InOrder, EndedBySkip, IsBest;
    var mid := left[x.sender := left[x.sender][1..]];
    if hitsLimit(x) && !AllTaken(mid) {
      var b :| b in mid && mid[b] != [] && IsBest(mid, mid[b][0]) && after == mid[b := []];
      PopsItself(offered, yielded, left, dropped, x, b, hitsLimit);
    }
    OneMoreEnded(yielded, left, x, after, hitsLimit);
  }

  /** The last action that was run filled the block. */
  ghost predicate Filled(yielded: seq<Action>, full: Action -> bool, hitsLimit: Action -> bool) {
    yielded != [] && !hitsLimit(yielded[|yielded| - 1]) && full(yielded[|yielded| - 1])
  }

  /** The places of what is left: fewer with every round. */
  ghost function Places(left: Offers): set<(Address, nat)> {
    set a, i: nat | a in left.Keys && i < |left[a]| :: (a, i)
  }

  lemma RoundShrinks(before: Offers, x: Action, after: Offers, hitsLimit: Action -> bool)
    requires Round(before, x, after, hitsLimit)
    ensures Places(after) < Places(before)
  {
    var a := x.sender;
    assert (a, |before[a]| - 1) in Places(before) && (a, |before[a]| - 1) !in Places(after);
    assert forall b :: b in after ==> b in before && |after[b]| <= |before[b]|;
  }

  /**
  Runs action after action until none is left or one fills the block; one that hits the gas limit is skipped and an
  account is popped. `yielded` is all that came, `lefts` what was left before each and at the end, `dropped` the
  accounts popped.
  */
  method PickAndRunActions(actionMap: Offers, full: Action -> bool, hitsLimit: Action -> bool)
    returns (executed: seq<Action>, ghost yielded: seq<Action>, ghost lefts: seq<Offers>, ghost dropped: set<Address>)
    requires OwnActions(actionMap)
    ensures Picked(actionMap, yielded, lefts, hitsLimit) && executed == Without(yielded, hitsLimit)
    ensures InOrder(actionMap, yielded, lefts[|yielded|], dropped)
    ensures forall i :: 0 <= i < |yielded| ==> !Filled(yielded[..i], full, hitsLimit)
    ensures !Filled(yielded, full, hitsLimit) ==>
              && AllTaken(lefts[|yielded|])
              && forall a :: a in actionMap && a !in dropped ==> Of(yielded, a) == actionMap[a]
    ensures |dropped| <= |yielded| - |executed|
    ensures |dropped| < |yielded| - |executed| ==> AllTaken(lefts[|yielded|])
    ensures (forall x :: x in yielded ==> !hitsLimit(x)) ==> dropped == {}
    ensures SkipsEndAccounts(actionMap, hitsLimit) ==> NoAccountAfterSkip(yielded, hitsLimit)
  {
    hide IsHeap, Heads, OwnActions, Behind, InOrder, Of, SkipsEndAccounts, EndedBySkip, NoAccountAfterSkip, Round;
    hide AllTaken, Picked, Without, Places;
    ghost var clean := SkipsEndAccounts(actionMap, hitsLimit);
    NothingSkipped(actionMap, hitsLimit);
    var it := new ActionIterator(actionMap);
    executed, lefts := [], [actionMap];
    NonePicked(actionMap, hitsLimit);
    var done := false;
    while !done
      invariant it.Valid() && it.all == actionMap && fresh(it) && |lefts| == |it.yielded| + 1
      invariant Picked(actionMap, it.yielded, lefts, hitsLimit) && lefts[|it.yielded|] == it.left
      invariant executed == Without(it.yielded, hitsLimit)
      invariant |it.dropped| <= |it.yielded| - |executed|
      invariant |it.dropped| == |it.yielded| - |executed| || AllTaken(it.left)
      invariant clean ==> EndedBySkip(it.yielded, it.left, hitsLimit)
      invariant forall i :: 0 <= i < |it.yielded| ==> !Filled(it.yielded[..i], full, hitsLimit)
      invariant !done ==> !Filled(it.yielded, full, hitsLimit)
      invariant done && !Filled(it.yielded, full, hitsLimit) ==>
                  && AllTaken(it.left)
                  && forall a :: a in actionMap && a !in it.dropped ==> Of(it.yielded, a) == actionMap[a]
      decreases !done, Places(it.left)
    {
      ghost var before, left, dropped := it.yielded, it.left, it.dropped;
      var next := PickOne(it, hitsLimit);
      if next.None? {
        done := true;
      } else {
        WithoutMore(before, next.value, hitsLimit);
        PickedMore(actionMap, before, lefts, hitsLimit, next.value, it.left);
        RoundShrinks(left, next.value, it.left, hitsLimit);
        FilledLater(before, next.value, full, hitsLimit);
        if clean { RoundKeepsEnded(actionMap, before, left, dropped, next.value, it.left, hitsLimit); }
        if !hitsLimit(next.value) {
          executed := executed + [next.value];
          done := full(next.value);
        }
        lefts := lefts + [it.left];
      }
    }
    yielded, dropped := it.yielded, it.dropped;
    if clean { EndedHasNoGap(yielded, lefts[|yielded|], hitsLimit, actionMap, dropped); }
    if forall x :: x in yielded ==> !hitsLimit(x) { NoneSkipped(yielded, hitsLimit); }
  }

  lemma FilledLater(yielded: seq<Action>, x: Action, full: Action -> bool, hitsLimit: Action -> bool)
    requires forall i :: 0 <= i < |yielded| ==> !Filled(yielded[..i], full, hitsLimit)
    requires !Filled(yielded, full, hitsLimit)
    ensures forall i :: 0 <= i < |yielded + [x]| ==> !Filled((yielded + [x])[..i], full, hitsLimit)
    ensures Filled(yielded + [x], full, hitsLimit) <==> !hitsLimit(x) && full(x)
  {
    forall i | 0 <= i < |yielded + [x]| ensures !Filled((yielded + [x])[..i], full, hitsLimit) {
      assert (yielded + [x])[..i] == yielded[..i];
      assert i == |yielded| ==> yielded[..i] == yielded;
    }
  }

  lemma NonePicked(offered: Offers, hitsLimit: Action -> bool)
    ensures Picked(offered, [], [offered], hitsLimit) && Without([], hitsLimit) == []
  {
  }

  lemma WithoutMore(acts: seq<Action>, x: Action, skipped: Action -> bool)
    ensures Without(acts + [x], skipped) == Without(acts, skipped) + if skipped(x) then [] else [x]
  {
    assert (acts + [x])[..|acts|] == acts;
  }

  lemma {:induction false} NoneSkipped(acts: seq<Action>, skipped: Action -> bool)
    requires forall x :: x in acts ==> !skipped(x)
    ensures Without(acts, skipped) == acts
  {
    if acts != [] {
      var most, last := acts[..|acts| - 1], acts[|acts| - 1];
      assert acts == most + [last];
      assert last in acts;
      NoneSkipped(most, skipped);
    }
  }

  /**
  The block a producer makes of the actions the pool offers and the protocol's own passes the
  check of the nonces exactly if no account has an action in it after one that was skipped.
  */
  method MintBlock(pool: ActPool, now: nat, full: Action -> bool, hitsLimit: Action -> bool,
                   zeroes: seq<Action>, height: nat)
    returns (block: seq<Action>, ok: bool, ghost offered: Offers, ghost yielded: seq<Action>, ghost lefts: seq<Offers>,
             ghost dropped: set<Address>)
    requires pool.Valid() && AllZero(zeroes)
    modifies pool, pool.accountActs.Values
    ensures pool.Valid() && block == Without(yielded, hitsLimit) + zeroes
    ensures ok <==> height == 0 || NoAccountAfterSkip(yielded, hitsLimit)
    ensures (forall x :: x in yielded ==> !hitsLimit(x)) ==> ok
    ensures SkipsEndAccounts(offered, hitsLimit) ==> ok
    ensures pool.AllSettled() && pool.accountActs.Values <= old(pool.accountActs.Values)
    ensures Picked(offered, yielded, lefts, hitsLimit)
    ensures forall i :: 0 <= i < |yielded| ==> !Filled(yielded[..i], full, hitsLimit)
    ensures |dropped| <= |yielded| - (|block| - |zeroes|)
    ensures |dropped| < |yielded| - (|block| - |zeroes|) ==> AllTaken(lefts[|yielded|])
    ensures !Filled(yielded, full, hitsLimit) ==>
              && AllTaken(lefts[|yielded|])
              && forall a :: a in offered && a !in dropped ==> Of(yielded, a) == offered[a]
    ensures (forall x :: x in yielded ==> !hitsLimit(x)) ==> dropped == {}
    ensures forall a :: a in old(pool.accountActs) ==> var q := old(pool.accountActs[a]);
              Offered(offered, a, old(q.items), old(q.deadlines), pool.chain, pool.ttl, now)
  {
    hide ActPool.AllSettled, ActPool.AllItems, OwnActions, OffersRuns, InOrder, NonZero, RunFrom, AllZero, Offered;
    hide Without, NoAccountAfterSkip, NoncesFollow, Of, SkipsEndAccounts, Within, Round, AllTaken, Filled;
    var actionMap := pool.PendingActionMap(now);
    offered := actionMap;
    ghost var queues := pool.AllItems();
    OfferedOwn(pool, actionMap);
    hide ActPool.Valid;
    block, yielded, lefts, dropped := PickAndRunActions(actionMap, full, hitsLimit);
    ghost var left := lefts[|yielded|];
    ExecutedNotZero(yielded, left, dropped, hitsLimit, actionMap, queues, pool.chain);
    ZeroesDoNotShow(block, zeroes);
    block := block + zeroes;
    OfferedBlockPasses(block, yielded, left, dropped, hitsLimit, actionMap, queues, pool.chain);
    ok := ValidateNonces(block, pool.chain, height);
    if forall x :: x in yielded ==> !hitsLimit(x) { NoneHit(yielded, hitsLimit); }
  }

  /**
  Two accounts, of which the first has two actions: its first one hits the limit, the second
  account is popped instead of it, and the block with the action that is left does not pass.
  */
  method SkipLeavesGap(a: Address, b: Address) returns (ok: bool)
    requires a != b
    ensures !ok
  {
    hide ActionIterator.Valid, NoncesFollow, Of, OwnActions;
    var one, two, other := Action(a, 1, 0, 0, 9, 0), Action(a, 2, 0, 0, 1, 0), Action(b, 1, 0, 0, 5, 0);
    OwnTwo(a, b, one, two, other);
    var it := new ActionIterator(map[a := [one, two], b := [other]]);
    var first := it.Next();
    assert [one, two][1..] == [two];
    assert it.left == map[a := [two], b := [other]];
    ghost var before := it.left;
    assert before[a] == [two] && before[b] == [other];
    ghost var popped := it.PopAccount();
    assert popped == Some(b) && it.left[a] == [two];
    var second := it.Next();
    ok := ValidateNonces([second.value], Chain(map[], map[]), 1);
    SecondRefused(two);
  }

  lemma OwnTwo(a: Address, b: Address, one: Action, two: Action, other: Action)
    requires a != b && one.sender == two.sender == a && other.sender == b
    ensures OwnActions(map[a := [one, two], b := [other]])
  {
  }

  lemma SecondRefused(x: Action)
    requires x.nonce == 2
    ensures !NoncesFollow([x], Chain(map[], map[]))
  {
    assert [x][..0] == [] && NoncesBy([x], x.sender) == [2];
    assert Following(0, 1)[0] == 1 && 2 in multiset([2]);
    assert !Contiguous([2], 0);
  }

  lemma ExecutedNotZero(yielded: seq<Action>, left: Offers, dropped: set<Address>, hitsLimit: Action -> bool,
                        offered: Offers, queues: map<Address, Items>, chain: Chain)
    requires InOrder(offered, yielded, left, dropped) && OffersRuns(offered, queues, chain)
    ensures NonZero(Without(yielded, hitsLimit)) == Without(yielded, hitsLimit)
  {
    hide Without;
    YieldedNotZero(yielded, left, dropped, offered, queues, chain);
    forall x | x in Without(yielded, hitsLimit) ensures x.nonce != 0 { InWithout(yielded, hitsLimit, x); }
    NoneIsZero(Without(yielded, hitsLimit));
  }

  lemma NoneHit(yielded: seq<Action>, hitsLimit: Action -> bool)
    requires forall x :: x in yielded ==> !hitsLimit(x)
    ensures NoAccountAfterSkip(yielded, hitsLimit)
  {
    hide Of;
    forall a, i | 0 <= i < |Of(yielded, a)| ensures !hitsLimit(Of(yielded, a)[i]) { OfIsPart(yielded, a, i); }
  }

  lemma {:induction false} OfIsPart(acts: seq<Action>, a: Address, i: nat)
    requires i < |Of(acts, a)|
    ensures Of(acts, a)[i] in acts
  {
    var most := acts[..|acts| - 1];
    if i < |Of(most, a)| {
      OfIsPart(most, a, i);
    }
  }

  lemma OfferedOwn(pool: ActPool, actionMap: Offers)
    requires pool.Queued() && actionMap.Keys == pool.accountActs.Keys
    requires forall a :: a in pool.accountActs ==>
               actionMap[a] == RunFrom(pool.accountActs[a].items, pool.chain.Nonce(a) + 1)
    ensures OwnActions(actionMap) && OffersRuns(actionMap, pool.AllItems(), pool.chain)
  {
    hide RunFrom, ActPool.Queued, Owned;
    forall a | a in actionMap ensures forall x :: x in actionMap[a] ==> x.sender == a {
      pool.QueueOf(a);
      RunOwned(pool.accountActs[a].items, a, pool.chain.Nonce(a) + 1);
    }
    forall a | a in actionMap ensures a in pool.AllItems() && Owned(pool.AllItems()[a], a) {
      pool.QueueOf(a);
    }
  }

  lemma {:induction false} RunOwned(items: Items, a: Address, n: nat)
    requires Owned(items, a)
    ensures forall x :: x in RunFrom(items, n) ==> x.sender == a
    decreases From(items, n)
  {
    if n in items {
      assert n in From(items, n) && n !in From(items, n + 1);
      RunOwned(items, a, n + 1);
    }
  }
}
