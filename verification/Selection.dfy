/**
The order in which pending actions are offered to a block
(actpool/actioniterator/actioniterator.go): the heads of all accounts in a heap
by price, each replaced by its account's next action when it is taken.
*/
module ActionIteration {
  import opened Options
  import opened Actions
  import opened Heaps

  type Offers = map<Address, seq<Action>>

  function ByPrice(a: Action): int {
    0 - a.price
  }

  ghost predicate OwnActions(queues: Offers) {
    forall a :: a in queues ==> forall x :: x in queues[a] ==> x.sender == a
  }

  /** The first action of every account that has one. */
  ghost function Heads(queues: Offers): multiset<Action> {
    multiset(HeadSet(queues))
  }

  ghost function HeadSet(queues: Offers): set<Action> {
    set a | a in queues.Keys && queues[a] != [] :: queues[a][0]
  }

  lemma InHeads(queues: Offers, x: Action)
    requires OwnActions(queues)
    ensures x in Heads(queues) <==> x.sender in queues && queues[x.sender] != [] && queues[x.sender][0] == x
    ensures Heads(queues)[x] <= 1
  {
    if x in HeadSet(queues) {
      var a :| a in queues.Keys && queues[a] != [] && queues[a][0] == x;
      assert queues[a][0] in queues[a];
    }
  }

  /** Taking the head of one account. */
  lemma HeadTaken(queues: Offers, a: Address)
    requires OwnActions(queues) && a in queues && queues[a] != []
    ensures OwnActions(queues[a := queues[a][1..]])
    ensures var to := queues[a := queues[a][1..]];
            Heads(to) == Heads(queues) - multiset{queues[a][0]}
                + (if queues[a][1..] == [] then multiset{} else multiset{queues[a][1]})
  {
    var to := queues[a := queues[a][1..]];
    var rest := if queues[a][1..] == [] then multiset{} else multiset{queues[a][1]};
    assert queues[a][0] in queues[a];
    assert forall x :: x in to[a] ==> x in queues[a];
    forall x: Action ensures Heads(to)[x] == (Heads(queues) - multiset{queues[a][0]} + rest)[x] {
      InHeads(queues, x);
      InHeads(to, x);
      if |queues[a]| > 1 { assert queues[a][1] in queues[a]; }
    }
  }

  /** The actions of one account in a list. */
  ghost function Of(acts: seq<Action>, a: Address): seq<Action> {
    if acts == [] then []
    else Of(acts[..|acts| - 1], a) + if acts[|acts| - 1].sender == a then [acts[|acts| - 1]] else []
  }

  lemma OfAppend(acts: seq<Action>, x: Action, a: Address)
    ensures Of(acts + [x], a) == Of(acts, a) + if x.sender == a then [x] else []
  {
    assert (acts + [x])[..|acts|] == acts;
  }

  /** Each account's actions come in order, once, and for an account that was dropped only the first of them. */
  ghost predicate InOrder(all: Offers, yielded: seq<Action>, left: Offers, dropped: set<Address>) {
    && left.Keys == all.Keys
    && (forall x :: x in yielded ==> x.sender in all)
    && (forall a :: a in all && a !in dropped ==> Of(yielded, a) + left[a] == all[a])
    && (forall a :: a in all && a in dropped ==> Of(yielded, a) <= all[a] && left[a] == [])
  }

  lemma OneYielded(all: Offers, yielded: seq<Action>, left: Offers, dropped: set<Address>, x: Action)
    requires InOrder(all, yielded, left, dropped)
    requires x.sender in left && left[x.sender] != [] && left[x.sender][0] == x
    ensures InOrder(all, yielded + [x], left[x.sender := left[x.sender][1..]], dropped)
  {
    hide Of;
    var to := left[x.sender := left[x.sender][1..]];
    forall a | a in all ensures a !in dropped ==> Of(yielded + [x], a) + to[a] == all[a] {
      OfAppend(yielded, x, a);
    }
    forall a | a in all && a in dropped ensures Of(yielded + [x], a) == Of(yielded, a) {
      OfAppend(yielded, x, a);
    }
  }

  lemma OneDropped(all: Offers, yielded: seq<Action>, left: Offers, dropped: set<Address>, b: Address)
    requires InOrder(all, yielded, left, dropped)
    ensures InOrder(all, yielded, if b in left then left[b := []] else left, dropped + {b})
  {
    hide Of;
    if b in all && b !in dropped { assert all[b][..|Of(yielded, b)|] == Of(yielded, b); }
  }

  /** What is left once the heads are taken out. */
  ghost predicate Behind(rest: Offers, left: Offers) {
    rest.Keys == left.Keys && forall a :: a in left && left[a] != [] ==> rest[a] == left[a][1..]
  }

  lemma BehindStep(rest: Offers, left: Offers, a: Address)
    requires Behind(rest, left) && a in left && left[a] != []
    ensures a in rest && rest[a] == left[a][1..]
    ensures rest[a] == [] ==> Behind(rest, left[a := left[a][1..]])
    ensures rest[a] != [] ==> rest[a][0] == left[a][1] && Behind(rest[a := rest[a][1..]], left[a := left[a][1..]])
  {
  }

  ghost function Done(acts: Offers, todo: set<Address>): Offers {
    map a | a in acts && a !in todo :: acts[a]
  }

  lemma OneDone(acts: Offers, todo: set<Address>, a: Address)
    requires OwnActions(acts) && a in acts && a in todo
    ensures Heads(Done(acts, todo - {a})) == Heads(Done(acts, todo)) + if acts[a] == [] then multiset{}
        else multiset{acts[a][0]}
  {
    assert Done(acts, todo - {a}) == Done(acts, todo)[a := acts[a]];
    HeadAdded(Done(acts, todo), a, acts[a]);
  }

  method TakeHeads(acts: Offers) returns (hs: seq<Action>, rest: Offers)
    requires OwnActions(acts)
    ensures multiset(hs) == Heads(acts) && Behind(rest, acts)
  {
    hide Heads, Done, OwnActions;
    var todo := acts.Keys;
    hs, rest := [], acts;
    assert Heads(Done(acts, todo)) == multiset{} by { NoneDone(acts); }
    while todo != {}
      invariant todo <= acts.Keys == rest.Keys
      invariant forall a :: a in acts ==> rest[a] == if a in todo || acts[a] == [] then acts[a] else acts[a][1..]
      invariant multiset(hs) == Heads(Done(acts, todo))
      decreases todo
    {
      var sender :| sender in todo;
      OneDone(acts, todo, sender);
      todo := todo - {sender};
      if acts[sender] != [] {
        hs := hs + [acts[sender][0]];
        rest := rest[sender := if |acts[sender]| > 1 then acts[sender][1..] else []];
      }
    }
    AllDone(acts);
  }

  lemma NoneDone(acts: Offers)
    ensures Heads(Done(acts, acts.Keys)) == multiset{}
  {
    assert Done(acts, acts.Keys) == map[];
  }

  lemma AllDone(acts: Offers)
    ensures Done(acts, {}) == acts
  {
  }

  class ActionIterator {
    var accountActs: Offers
    var heads: seq<Action>
    /** All that is still to come, by account, what came already, and what there was. */
    ghost var left: Offers
    ghost var yielded: seq<Action>
    /** The accounts that were popped. */
    ghost var dropped: set<Address>
    ghost const all: Offers

    ghost predicate Valid()
      reads this
    {
      && IsHeap(heads, ByPrice)
      && OwnActions(left) && multiset(heads) == Heads(left)
      && Behind(accountActs, left)
      && InOrder(all, yielded, left, dropped)
    }

    constructor (acts: Offers)
      requires OwnActions(acts)
      ensures Valid() && left == acts && yielded == [] && dropped == {} && all == acts
    {
      var hs, rest := TakeHeads(acts);
      hs := Init(hs, ByPrice);
      accountActs, heads := rest, hs;
      left, yielded, dropped, all := acts, [], {}, acts;
    }

    /**
    The next action: the first one left of its account, and none of the other
    accounts' first ones has a higher price.
    */
    method Next() returns (act: Option<Action>)
      requires Valid()
      modifies this
      ensures Valid() && dropped == old(dropped)
      ensures act.None? ==>
                && yielded == old(yielded) && left == old(left) && (forall a :: a in left ==> left[a] == [])
                && forall a :: a in all && a !in dropped ==> Of(yielded, a) == all[a]
      ensures act.Some? ==> Takes(old(left), act.value, left) && yielded == old(yielded) + [act.value]
    {
      hide IsHeap, Heads, Of, OwnActions, Behind, IsBest;
      if |heads| == 0 {
        NoHeads(left);
        return None;
      }
      var x := heads[0];
      TopIsBest(heads, left);
      OneYielded(all, yielded, left, dropped, x);
      HeadTaken(left, x.sender);
      LoadNextActionForTopAccount();
      left := left[x.sender := left[x.sender][1..]];
      yielded := yielded + [x];
      return Some(x);
    }

    /** Drops the account whose next action has the highest price now, with all that is left of it. */
    method PopAccount() returns (ghost popped: Option<Address>)
      requires Valid()
      modifies this
      ensures Valid() && yielded == old(yielded)
      ensures match popped
              case None => left == old(left) && dropped == old(dropped) && forall a :: a in left ==> left[a] == []
              case Some(b) =>
                && b in old(left) && old(left)[b] != [] && IsBest(old(left), old(left)[b][0])
                && left == old(left)[b := []] && b !in old(dropped) && dropped == old(dropped) + {b}
    {
      hide IsHeap, Heads, Of, OwnActions, IsBest;
      popped := None;
      if |heads| == 0 {
        NoHeads(left);
        return;
      }
      TopIsBest(heads, left);
      ghost var b := heads[0].sender;
      HeadDropped(left, b);
      OneDropped(all, yielded, left, dropped, b);
      var x;
      heads, x := Pop(heads, ByPrice);
      left, dropped, popped := left[b := []], dropped + {b}, Some(b);
    }

    /** Replaces the top of the heap by its account's next action, or takes it off. */
    method LoadNextActionForTopAccount()
      requires IsHeap(heads, ByPrice) && heads != []
      requires heads[0].sender in left && left[heads[0].sender] != [] && Behind(accountActs, left)
      modifies this`heads, this`accountActs
      ensures IsHeap(heads, ByPrice)
      ensures var a := old(heads[0]).sender;
              && Behind(accountActs, left[a := left[a][1..]])
              && multiset(heads) == old(multiset(heads)) - multiset{old(heads[0])} +
                                    (if left[a][1..] == [] then multiset{} else multiset{left[a][1]})
    {
      hide IsHeap, Behind;
      var a := heads[0].sender;
      BehindStep(accountActs, left, a);
      if accountActs[a] != [] {
        heads := FixFront(heads, ByPrice, accountActs[a][0]);
        accountActs := accountActs[a := accountActs[a][1..]];
      } else {
        var x;
        heads, x := Pop(heads, ByPrice);
      }
    }
  }

  /** No account's next action has a higher price. */
  ghost predicate IsBest(left: Offers, x: Action) {
    forall b :: b in left && left[b] != [] ==> left[b][0].price <= x.price
  }

  /** A head with the highest price among all heads is taken from its account. */
  ghost predicate Takes(before: Offers, x: Action, after: Offers) {
    && x.sender in before && before[x.sender] != [] && x == before[x.sender][0] && IsBest(before, x)
    && after == before[x.sender := before[x.sender][1..]]
  }

  lemma TopIsBest(heads: seq<Action>, left: Offers)
    requires IsHeap(heads, ByPrice) && heads != [] && OwnActions(left) && multiset(heads) == Heads(left)
    ensures var x := heads[0];
            && x.sender in left && left[x.sender] != [] && x == left[x.sender][0] && IsBest(left, x)
  {
    hide IsHeap, Heads;
    var x := heads[0];
    assert x in multiset(heads);
    InHeads(left, x);
    forall b | b in left && left[b] != [] ensures left[b][0].price <= x.price {
      assert left[b][0] in left[b];
      InHeads(left, left[b][0]);
      assert left[b][0] in multiset(heads);
      var k :| 0 <= k < |heads| && heads[k] == left[b][0];
      FrontIsLeast(heads, ByPrice, k);
    }
  }

  lemma HeadAdded(queues: Offers, a: Address, acts: seq<Action>)
    requires OwnActions(queues) && a !in queues && forall x :: x in acts ==> x.sender == a
    ensures OwnActions(queues[a := acts])
    ensures Heads(queues[a := acts]) == Heads(queues) + if acts == [] then multiset{} else multiset{acts[0]}
  {
    var to := queues[a := acts];
    var more := if acts == [] then multiset{} else multiset{acts[0]};
    forall x: Action ensures Heads(to)[x] == (Heads(queues) + more)[x] {
      InHeads(queues, x);
      InHeads(to, x);
      if acts != [] { assert acts[0] in acts; }
    }
  }

  lemma HeadDropped(queues: Offers, a: Address)
    requires OwnActions(queues) && a in queues && queues[a] != []
    ensures OwnActions(queues[a := []]) && Heads(queues[a := []]) == Heads(queues) - multiset{queues[a][0]}
  {
    var to := queues[a := []];
    assert queues[a][0] in queues[a];
    forall x: Action ensures Heads(to)[x] == (Heads(queues) - multiset{queues[a][0]})[x] {
      InHeads(queues, x);
      InHeads(to, x);
    }
  }

  lemma NoHeads(queues: Offers)
    requires OwnActions(queues) && Heads(queues) == multiset{}
    ensures forall a :: a in queues ==> queues[a] == []
  {
    forall a | a in queues ensures queues[a] == [] {
      if queues[a] != [] {
        assert queues[a][0] in queues[a];
        InHeads(queues, queues[a][0]);
      }
    }
  }
}
