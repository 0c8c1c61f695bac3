/**
The nonce part of block validation (blockchain/blockvalidator.go): the non-zero
nonces of each account in a block must follow its confirmed nonce without gaps.
*/
module NonceValidation {
  import opened Actions
  import opened ActQueueSpec
  import opened ActPoolSpec
  import opened ActionIteration
  import opened Heaps

  type NonceMap = map<Address, seq<nat>>

  function Id(n: nat): int {
    n
  }

  /** The non-zero nonces of one account in a block. */
  ghost function NoncesBy(acts: seq<Action>, a: Address): seq<nat> {
    if acts == [] then []
    else NoncesBy(acts[..|acts| - 1], a) +
         if acts[|acts| - 1].sender == a && acts[|acts| - 1].nonce != 0 then [acts[|acts| - 1].nonce] else []
  }

  /** The nonces that follow a confirmed one. */
  ghost function Following(confirmed: nat, n: nat): (s: seq<nat>)
    ensures |s| == n && forall i :: 0 <= i < n ==> s[i] == confirmed + i + 1
  {
    seq(n, i requires 0 <= i => confirmed + i + 1)
  }

  /** In some order, the nonces are the next ones of the account. */
  ghost predicate Contiguous(nonces: seq<nat>, confirmed: nat) {
    multiset(nonces) == multiset(Following(confirmed, |nonces|))
  }

  /** The nonces of every account in a block are its next ones. */
  ghost predicate NoncesFollow(block: seq<Action>, chain: Chain) {
    forall a :: Contiguous(NoncesBy(block, a), chain.Nonce(a))
  }

  /** The same nonces in ascending order are the same list, place by place. */
  lemma SameInOrder(s: seq<nat>, t: seq<nat>)
    requires Sorted(s, Id) && Sorted(t, Id) && multiset(s) == multiset(t)
    ensures s == t
  {
    assert |multiset(s)| == |multiset(t)|;
    for i := 0 to |s|
      invariant s[..i] == t[..i]
    {
      NotLess(s, t, i);
      NotLess(t, s, i);
    }
    assert s[..|s|] == t[..|t|];
  }

  /** What follows a common beginning is the same up to order, so the one occurs in the other from there on. */
  lemma NotLess(s: seq<nat>, t: seq<nat>, i: nat)
    requires Sorted(t, Id) && multiset(s) == multiset(t) && i < |s| && i < |t| && s[..i] == t[..i]
    ensures s[i] >= t[i]
  {
    assert s == s[..i] + s[i..] && t == t[..i] + t[i..];
    assert multiset(s[i..]) == multiset(s) - multiset(s[..i]) == multiset(t[i..]);
    assert s[i..][0] == s[i] && s[i] in multiset(t[i..]);
    var j :| 0 <= j < |t[i..]| && t[i..][j] == s[i];
    assert j > 0 ==> Id(t[i]) <= Id(t[i + j]);
  }

  ghost predicate Collected(m: NonceMap, acts: seq<Action>) {
    && (forall a :: a in m ==> m[a] == NoncesBy(acts, a))
    && (forall a :: a !in m ==> NoncesBy(acts, a) == [])
  }

  lemma OneCollected(m: NonceMap, acts: seq<Action>, i: nat)
    requires i < |acts| && Collected(m, acts[..i])
    ensures var x := acts[i];
            Collected(if x.nonce == 0 then m else m[x.sender := (if x.sender in m then m[x.sender] else [])
                                                    + [x.nonce]], acts[..i + 1])
  {
    assert acts[..i + 1][..i] == acts[..i];
  }

  method CollectNonces(acts: seq<Action>) returns (m: NonceMap)
    ensures Collected(m, acts)
  {
    hide Collected;
    m := map[];
    assert acts[..0] == [];
    assert Collected(m, acts[..0]) by { NothingCollected(); }
    for i := 0 to |acts|
      invariant Collected(m, acts[..i])
    {
      OneCollected(m, acts, i);
      var x := acts[i];
      if x.nonce != 0 {
        m := m[x.sender := (if x.sender in m then m[x.sender] else []) + [x.nonce]];
      }
    }
    assert acts[..|acts|] == acts;
  }

  lemma NothingCollected()
    ensures Collected(map[], [])
  {
  }

  /** Whether a list of nonces, sorted, follows a confirmed one without gaps. */
  method CheckNonces(nonces: seq<nat>, confirmed: nat) returns (ok: bool)
    ensures ok <==> Contiguous(nonces, confirmed)
  {
    var sorted := Sort(nonces, Id);
    var next := Following(confirmed, |nonces|);
    assert |multiset(sorted)| == |multiset(nonces)|;
    assert Sorted(next, Id);
    if multiset(nonces) == multiset(next) { SameInOrder(sorted, next); }
    for i := 0 to |sorted|
      invariant sorted[..i] == next[..i]
    {
      if sorted[i] != confirmed + i + 1 {
        return false;
      }
    }
    assert sorted == next;
    return true;
  }

  /** A block passes exactly when the nonces of every account do; the genesis block is not checked. */
  method ValidateNonces(acts: seq<Action>, chain: Chain, height: nat) returns (ok: bool)
    ensures ok <==> height == 0 || NoncesFollow(acts, chain)
  {
    hide NoncesBy, Contiguous;
    var m := CollectNonces(acts);
    if height == 0 {
      return true;
    }
    var todo := m.Keys;
    while todo != {}
      invariant todo <= m.Keys
      invariant forall a :: a in m && a !in todo ==> Contiguous(m[a], chain.Nonce(a))
      decreases todo
    {
      var a :| a in todo;
      var fine := CheckNonces(m[a], chain.Nonce(a));
      if !fine {
        assert !Contiguous(NoncesBy(acts, a), chain.Nonce(a));
        return false;
      }
      todo := todo - {a};
    }
    forall a ensures Contiguous(NoncesBy(acts, a), chain.Nonce(a)) {
      NoneIsContiguous(chain.Nonce(a));
    }
    return true;
  }

  lemma NoneIsContiguous(confirmed: nat)
    ensures Contiguous([], confirmed)
  {
    assert Following(confirmed, 0) == [];
  }

  // ---- what the pool offers passes

  ghost function NonZero(acts: seq<Action>): seq<Action> {
    if acts == [] then []
    else NonZero(acts[..|acts| - 1]) + if acts[|acts| - 1].nonce != 0 then [acts[|acts| - 1]] else []
  }

  ghost function Nonces(acts: seq<Action>): (s: seq<nat>)
    ensures |s| == |acts| && forall i :: 0 <= i < |s| ==> s[i] == acts[i].nonce
  {
    seq(|acts|, i requires 0 <= i < |acts| => acts[i].nonce)
  }

  lemma {:induction false} NoncesByIsOf(acts: seq<Action>, a: Address)
    ensures NoncesBy(acts, a) == Nonces(Of(NonZero(acts), a))
  {
    if acts != [] {
      var most, x := acts[..|acts| - 1], acts[|acts| - 1];
      NoncesByIsOf(most, a);
      if x.nonce != 0 {
        OfAppend(NonZero(most), x, a);
        var before := Of(NonZero(most), a);
        assert Nonces(before + [x]) == Nonces(before) + [x.nonce];
        assert before + [] == before && NoncesBy(most, a) + [] == NoncesBy(most, a);
      } else {
        assert NonZero(most) + [] == NonZero(most) && NoncesBy(most, a) + [] == NoncesBy(most, a);
      }
    }
  }

  /** The actions of a run carry the nonces that follow. */
  lemma {:induction false} RunNonces(items: Items, n: nat, i: nat)
    requires i < |RunFrom(items, n)| && forall k :: k in items ==> items[k].nonce == k
    ensures RunFrom(items, n)[i].nonce == n + i
    decreases i
  {
    if i > 0 { RunNonces(items, n + 1, i - 1); }
  }

  lemma PrefixContiguous(acts: seq<Action>, rest: seq<Action>, items: Items, confirmed: nat)
    requires acts + rest == RunFrom(items, confirmed + 1) && forall k :: k in items ==> items[k].nonce == k
    ensures Contiguous(Nonces(acts), confirmed)
  {
    hide RunFrom;
    forall i | 0 <= i < |acts| ensures Nonces(acts)[i] == Following(confirmed, |acts|)[i] {
      assert acts[i] == RunFrom(items, confirmed + 1)[i];
      RunNonces(items, confirmed + 1, i);
    }
    assert Nonces(acts) == Following(confirmed, |acts|);
  }

  /** Each account is offered its run after the confirmed nonce. */
  ghost predicate OffersRuns(offered: Offers, queues: map<Address, Items>, chain: Chain) {
    forall a :: a in offered ==>
      a in queues && Owned(queues[a], a) && offered[a] == RunFrom(queues[a], chain.Nonce(a) + 1)
  }

  /** What is left of a list without the actions that were skipped. */
  ghost function Without(acts: seq<Action>, skipped: Action -> bool): seq<Action> {
    if acts == [] then []
    else Without(acts[..|acts| - 1], skipped) + if skipped(acts[|acts| - 1]) then [] else [acts[|acts| - 1]]
  }

  lemma {:induction false} WithoutOf(acts: seq<Action>, skipped: Action -> bool, a: Address)
    ensures Of(Without(acts, skipped), a) == Without(Of(acts, a), skipped)
  {
    if acts != [] {
      var most, x := acts[..|acts| - 1], acts[|acts| - 1];
      WithoutOf(most, skipped, a);
      assert (Of(most, a) + [x])[..|Of(most, a)|] == Of(most, a);
      OfAppend(Without(most, skipped), x, a);
      assert Without(most, skipped) + [] == Without(most, skipped) && Of(most, a) + [] == Of(most, a);
    }
  }

  lemma {:induction false} InWithout(acts: seq<Action>, skipped: Action -> bool, x: Action)
    ensures x in Without(acts, skipped) <==> x in acts && !skipped(x)
  {
    if acts != [] {
      InWithout(acts[..|acts| - 1], skipped, x);
      assert acts == acts[..|acts| - 1] + [acts[|acts| - 1]];
    }
  }

  /** Once an action is skipped, so are all after it. */
  ghost predicate NoneAfterSkip(acts: seq<Action>, skipped: Action -> bool) {
    forall i, j :: 0 <= i < j < |acts| && skipped(acts[i]) ==> skipped(acts[j])
  }

  ghost predicate NoAccountAfterSkip(acts: seq<Action>, skipped: Action -> bool) {
    forall a :: NoneAfterSkip(Of(acts, a), skipped)
  }

  lemma {:induction false} WithoutIsPrefix(acts: seq<Action>, skipped: Action -> bool)
    requires NoneAfterSkip(acts, skipped)
    ensures Without(acts, skipped) <= acts
  {
    if acts != [] {
      var most, x := acts[..|acts| - 1], acts[|acts| - 1];
      WithoutIsPrefix(most, skipped);
      if !skipped(x) {
        assert forall i :: 0 <= i < |most| ==> most[i] == acts[i];
        NoneSkipped(most, skipped);
      }
    }
  }

  lemma {:induction false} NoneSkipped(acts: seq<Action>, skipped: Action -> bool)
    requires forall i :: 0 <= i < |acts| ==> !skipped(acts[i])
    ensures Without(acts, skipped) == acts
  {
    if acts != [] {
      NoneSkipped(acts[..|acts| - 1], skipped);
      assert acts == acts[..|acts| - 1] + [acts[|acts| - 1]];
    }
  }

  /** Of the first actions of a run, some skipped, the rest is contiguous exactly if nothing follows a skipped one. */
  lemma SkippedContiguousIff(acts: seq<Action>, rest: seq<Action>, skipped: Action -> bool, items: Items,
                             confirmed: nat)
    requires acts + rest == RunFrom(items, confirmed + 1) && forall k :: k in items ==> items[k].nonce == k
    ensures Contiguous(Nonces(Without(acts, skipped)), confirmed) <==> NoneAfterSkip(acts, skipped)
  {
    hide RunFrom, Contiguous, Without;
    if NoneAfterSkip(acts, skipped) {
      WithoutIsPrefix(acts, skipped);
      var kept := Without(acts, skipped);
      assert kept + (acts[|kept|..] + rest) == acts + rest;
      PrefixContiguous(kept, acts[|kept|..] + rest, items, confirmed);
    } else if Contiguous(Nonces(Without(acts, skipped)), confirmed) {
      var i, j :| 0 <= i < j < |acts| && skipped(acts[i]) && !skipped(acts[j]);
      GapShows(acts, rest, skipped, items, confirmed, i, j);
    }
  }

  lemma GapShows(acts: seq<Action>, rest: seq<Action>, skipped: Action -> bool, items: Items, confirmed: nat,
                 i: nat, j: nat)
    requires acts + rest == RunFrom(items, confirmed + 1) && forall k :: k in items ==> items[k].nonce == k
    requires i < j < |acts| && skipped(acts[i]) && !skipped(acts[j])
    ensures !Contiguous(Nonces(Without(acts, skipped)), confirmed)
  {
    hide RunFrom, Without;
    forall k | 0 <= k < |acts| ensures acts[k].nonce == confirmed + 1 + k {
      assert acts[k] == (acts + rest)[k];
      RunNonces(items, confirmed + 1, k);
    }
    var kept := Without(acts, skipped);
    forall x ensures x in kept <==> x in acts && !skipped(x) { InWithout(acts, skipped, x); }
    var next := Following(confirmed, |kept|);
    forall q | 0 <= q < |kept| ensures Nonces(kept)[q] != confirmed + 1 + i {
      assert kept[q] in kept;
    }
    var p := Place(kept, acts[j]);
    assert Nonces(kept)[p] == confirmed + 1 + j;
    assert j < |kept| ==> next[i] == confirmed + 1 + i && next[i] in multiset(next);
    assert Nonces(kept)[p] in multiset(Nonces(kept));
  }

  lemma Place(acts: seq<Action>, x: Action) returns (p: nat)
    requires x in acts
    ensures p < |acts| && acts[p] == x
  {
    p :| 0 <= p < |acts| && acts[p] == x;
  }

  /**
  A block made of what the iterator has yielded so far, from what the pool offers,
  but for some skipped actions, with any actions of nonce zero anywhere among it,
  passes the check exactly if no action of an account follows a skipped one of it.
  */
  lemma OfferedBlockPasses(block: seq<Action>, yielded: seq<Action>, left: Offers, dropped: set<Address>,
                           skipped: Action -> bool, offered: Offers, queues: map<Address, Items>, chain: Chain)
    requires NonZero(block) == Without(yielded, skipped)
    requires InOrder(offered, yielded, left, dropped) && OffersRuns(offered, queues, chain)
    ensures NoncesFollow(block, chain) <==> NoAccountAfterSkip(yielded, skipped)
  {
    hide Contiguous, NonZero, RunFrom, Without, NoneAfterSkip, InOrder, OffersRuns;
    if NoAccountAfterSkip(yielded, skipped) {
      forall a ensures Contiguous(NoncesBy(block, a), chain.Nonce(a)) {
        PassesFor(block, yielded, left, dropped, skipped, offered, queues, chain, a);
      }
    }
    if NoncesFollow(block, chain) {
      forall a ensures NoneAfterSkip(Of(yielded, a), skipped) {
        PassesFor(block, yielded, left, dropped, skipped, offered, queues, chain, a);
      }
    }
  }

  lemma PassesFor(block: seq<Action>, yielded: seq<Action>, left: Offers, dropped: set<Address>,
                  skipped: Action -> bool, offered: Offers, queues: map<Address, Items>, chain: Chain, a: Address)
    requires NonZero(block) == Without(yielded, skipped)
    requires InOrder(offered, yielded, left, dropped) && OffersRuns(offered, queues, chain)
    ensures Contiguous(NoncesBy(block, a), chain.Nonce(a)) <==> NoneAfterSkip(Of(yielded, a), skipped)
  {
    hide NoncesBy, Contiguous, NonZero, RunFrom, Of, Without, NoneAfterSkip;
    NoncesByIsOf(block, a);
    WithoutOf(yielded, skipped, a);
    if a in offered {
      var rest := offered[a][|Of(yielded, a)|..];
      assert Of(yielded, a) + rest == offered[a];
      SkippedContiguousIff(Of(yielded, a), rest, skipped, queues[a], chain.Nonce(a));
    } else {
      NoneOf(yielded, a);
      NothingOffered(skipped, chain.Nonce(a));
    }
  }

  lemma NothingOffered(skipped: Action -> bool, confirmed: nat)
    ensures Contiguous(Nonces(Without([], skipped)), confirmed) && NoneAfterSkip([], skipped)
  {
    NoneIsContiguous(confirmed);
    assert Nonces([]) == [];
  }

  lemma {:induction false} NoneOf(acts: seq<Action>, a: Address)
    requires forall x :: x in acts ==> x.sender != a
    ensures Of(acts, a) == []
  {
    if acts != [] {
      assert acts[|acts| - 1] in acts;
      forall x | x in acts[..|acts| - 1] ensures x.sender != a { assert x in acts; }
      NoneOf(acts[..|acts| - 1], a);
    }
  }
}
