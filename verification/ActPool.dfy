/**
What the action pool's books are (actpool/actpool.go): a global table of actions
by hash and a total of their gas, beside the queues of the accounts.
*/
module ActPoolSpec {
  import opened Actions
  import opened ActQueueSpec
  import opened ActQueues
  import opened Heaps

  type Queues = map<Address, Items>

  ghost predicate InQueues(queues: Queues, act: Action) {
    act.sender in queues && act.nonce in queues[act.sender] && queues[act.sender][act.nonce] == act
  }

  ghost function GasSum(s: set<ActHash>): nat {
    if s == {} then 0 else var h :| h in s; h.act.gas + GasSum(s - {h})
  }

  lemma {:induction false} GasOfOne(s: set<ActHash>, h: ActHash)
    requires h in s
    ensures GasSum(s) == h.act.gas + GasSum(s - {h})
  {
    var x :| x in s && GasSum(s) == x.act.gas + GasSum(s - {x});
    if x != h {
      GasOfOne(s - {x}, h);
      GasOfOne(s - {h}, x);
      assert s - {x} - {h} == s - {h} - {x};
    }
  }

  /** The table holds exactly the queued actions, and the gas total is theirs. */
  ghost predicate Books(queues: Queues, all: map<ActHash, Action>, gas: nat) {
    && (forall h :: h in all <==> InQueues(queues, h.act))
    && (forall h :: h in all ==> all[h] == h.act)
    && gas == GasSum(all.Keys)
  }

  lemma BooksList(queues: Queues, all: map<ActHash, Action>, gas: nat)
    requires Books(queues, all, gas)
    ensures gas == GasSum(all.Keys) && forall h :: h in all ==> all[h] == h.act
  {
  }

  ghost predicate Owned(items: Items, a: Address) {
    forall n :: n in items ==> items[n].nonce == n && items[n].sender == a
  }

  ghost function Hashes(acts: seq<Action>): set<ActHash> {
    set x | x in acts :: HashOf(x)
  }

  /** The books after a queue gave up some actions that are then taken out of the table. */
  lemma QueueShrinks(queues: Queues, a: Address, to: Items, removed: seq<Action>, all: map<ActHash, Action>, gas: nat)
    requires a in queues && Owned(queues[a], a) && Splits(queues[a], to, removed)
    requires Books(queues, all, gas)
    ensures forall x :: x in removed ==> HashOf(x) in all
    ensures forall i, j :: 0 <= i < j < |removed| ==> removed[i] != removed[j]
    ensures var less := all - Hashes(removed); Books(queues[a := to], less, GasSum(less.Keys))
  {
    forall x | x in removed ensures InQueues(queues, x) && HashOf(x) in all {
      assert HashOf(x) in all <==> InQueues(queues, HashOf(x).act);
    }
    forall h: ActHash ensures h in all.Keys - Hashes(removed) <==> InQueues(queues[a := to], h.act) {
      var x := h.act;
      assert h in all <==> InQueues(queues, x);
      assert x in removed <==> h in Hashes(removed);
      if InQueues(queues[a := to], x) {
        assert InQueues(queues, x);
        assert x !in removed;
      }
    }
  }

  lemma QueueGrows(queues: Queues, all: map<ActHash, Action>, gas: nat, act: Action, to: Items)
    requires Books(queues, all, gas) && act.sender in queues && act.nonce !in queues[act.sender]
    requires to == queues[act.sender][act.nonce := act]
    ensures HashOf(act) !in all
    ensures Books(queues[act.sender := to], all[HashOf(act) := act], gas + act.gas)
  {
    var h := HashOf(act);
    var more := all[h := act];
    assert h in all <==> InQueues(queues, h.act);
    GasOfOne(more.Keys, h);
    assert more.Keys - {h} == all.Keys;
    var q := queues[act.sender := to];
    forall k: ActHash ensures k in more <==> InQueues(q, k.act) {
      assert k in all <==> InQueues(queues, k.act);
      assert k == h || k.act != act;
    }
  }

  /** An empty queue makes no difference to the books. */
  lemma EmptyQueue(queues: Queues, a: Address, all: map<ActHash, Action>, gas: nat)
    requires a in queues && queues[a] == map[]
    ensures Books(queues, all, gas) <==> Books(queues - {a}, all, gas)
  {
    forall x: Action ensures InQueues(queues, x) <==> InQueues(queues - {a}, x) {
    }
  }

  /** What is left of a queue once the confirmed actions are gone. */
  ghost predicate ConfirmedGone(items: Items, deadlines: map<nat, nat>, was: Items, wasDeadlines: map<nat, nat>,
                                confirmed: nat) {
    && (forall n :: n in items <==> n in was && n > confirmed)
    && (forall n :: n in items ==> items[n] == was[n])
    && AgreeOn(items, deadlines, wasDeadlines) && Within(deadlines, wasDeadlines)
  }

  /** When the actions after the confirmed ones expire. */
  ghost function Due(items: Items, deadlines: map<nat, nat>, confirmed: nat): map<nat, nat> {
    map n | n in items && n > confirmed && n in deadlines :: deadlines[n]
  }

  /** What a sweep leaves, in whichever order the heap has its entries. */
  ghost predicate Swept(m: Items, due: map<nat, nat>, now: nat) {
    exists index :: IsHeap(index, NonceOf) && multiset(index) == Bag(due) && m.Keys == NoncesOf(Sweep(index, now))
  }

  /** `m` is what expiry leaves of some actions: it takes none before its deadline, and only in a sweep. */
  ghost predicate Leaves(m: Items, items: Items, deadlines: map<nat, nat>, ttl: nat, now: nat) {
    && (forall n :: n in m ==> n in items && m[n] == items[n])
    && (forall n :: n in items && n !in m ==> ttl != 0 && n in deadlines && now > deadlines[n])
    && (ttl != 0 ==> Swept(m, deadlines, now))
  }

  /** `m` is what expiry leaves of the actions after the confirmed ones. */
  ghost predicate LeftAfterExpiry(m: Items, items: Items, deadlines: map<nat, nat>, confirmed: nat, ttl: nat,
                                  now: nat) {
    Leaves(m, Above(items, confirmed + 1), Due(items, deadlines, confirmed), ttl, now)
  }

  /** `acts` are exactly the longest payable run of what expiry leaves. */
  ghost predicate LongestPayable(acts: seq<Action>, items: Items, deadlines: map<nat, nat>, chain: Chain, a: Address,
                                 ttl: nat, now: nat) {
    exists m :: LeftAfterExpiry(m, items, deadlines, chain.Nonce(a), ttl, now)
        && IsLongestRun(acts, m, chain.Nonce(a) + 1, chain.Balance(a))
  }

  /** A queue updated so would have nothing left. */
  ghost predicate NothingRefreshed(was: Items, deadlines: map<nat, nat>, chain: Chain, a: Address, ttl: nat, now: nat) {
    exists pendingNonce, pendingBalance ::
      Refreshed(map[], pendingNonce, pendingBalance, was, deadlines, chain, a, ttl, now)
  }

  /** The state of a queue that was updated from the confirmed nonce with the full balance. */
  ghost predicate Refreshed(items: Items, pendingNonce: nat, pendingBalance: nat,
                            was: Items, deadlines: map<nat, nat>, chain: Chain, a: Address, ttl: nat, now: nat) {
    exists m :: LeftAfterExpiry(m, was, deadlines, chain.Nonce(a), ttl, now) &&
                RefreshedTo(items, pendingNonce, pendingBalance, m, chain.Nonce(a) + 1, chain.Balance(a))
  }

  /**
  A queue that took an action in: it is added and, if it was the awaited one, the run moves on over what expiry
  leaves.
  */
  ghost predicate Entered(items: Items, pendingNonce: nat, pendingBalance: nat,
                          was: Items, wasNonce: nat, wasBalance: nat, deadlines: map<nat, nat>,
                          act: Action, ttl: nat, now: nat) {
    var more := was[act.nonce := act];
    if act.nonce == wasNonce then
      exists m :: Leaves(m, more, deadlines[act.nonce := now + ttl], ttl, now) &&
                  RefreshedTo(items, pendingNonce, pendingBalance, m, wasNonce, wasBalance)
    else items == more && pendingNonce == wasNonce && pendingBalance == wasBalance
  }

  /** The action is in the queue then: its own deadline has not passed, and the run begins with it. */
  lemma EnteredHas(items: Items, pendingNonce: nat, pendingBalance: nat, was: Items, wasNonce: nat, wasBalance: nat,
                   deadlines: map<nat, nat>, act: Action, ttl: nat, now: nat)
    requires Entered(items, pendingNonce, pendingBalance, was, wasNonce, wasBalance, deadlines, act, ttl, now)
    requires act.cost <= wasBalance
    ensures act.nonce in items && items[act.nonce] == act
  {
    hide Swept;
    if act.nonce == wasNonce {
      var m :| Leaves(m, was[act.nonce := act], deadlines[act.nonce := now + ttl], ttl, now) &&
               RefreshedTo(items, pendingNonce, pendingBalance, m, wasNonce, wasBalance);
      RunTakes(m, act, wasBalance);
    }
  }

  /** An awaited action that the balance pays for is part of the new run, and so stays. */
  lemma RunTakes(items: Items, act: Action, balance: nat)
    requires act.nonce in items && items[act.nonce] == act && act.cost <= balance
    ensures var end := EndOf(items, act.nonce, balance);
            forall left :: act.nonce in Trim(items, end, left) && Trim(items, end, left)[act.nonce] == act
  {
    var end := EndOf(items, act.nonce, balance);
    NoCost(items, act.nonce);
    assert Payable(items, act.nonce, act.nonce + 1, balance);
    LongestRun(items, act.nonce, balance, act.nonce + 1);
  }

  /** A settled queue that takes an action in stays settled exactly if expiry takes none of the actions paid for. */
  lemma StaysSettledIff(items: Items, pendingNonce: nat, pendingBalance: nat,
                        was: Items, wasNonce: nat, wasBalance: nat,
                        deadlines: map<nat, nat>, act: Action, ttl: nat, now: nat, confirmed: nat, balance: nat)
    requires Entered(items, pendingNonce, pendingBalance, was, wasNonce, wasBalance, deadlines, act, ttl, now)
    requires Settled(was, wasNonce, wasBalance, confirmed, balance)
    requires confirmed < act.nonce && act.nonce !in was && act.cost <= wasBalance
    ensures Settled(items, pendingNonce, pendingBalance, confirmed, balance) <==> HasAll(items, confirmed + 1, wasNonce)
  {
    hide Swept, EndOf, Cost, Trim;
    if act.nonce != wasNonce {
      PutSettles(was, wasNonce, wasBalance, confirmed, balance, act);
    } else {
      var more := was[act.nonce := act];
      var m :| Leaves(m, more, deadlines[act.nonce := now + ttl], ttl, now) &&
               RefreshedTo(items, pendingNonce, pendingBalance, m, wasNonce, wasBalance);
      TrimIsPart(m, pendingNonce, pendingBalance);
      if HasAll(items, confirmed + 1, wasNonce) {
        assert HasAll(m, confirmed + 1, wasNonce);
        CostSame(was, m, confirmed + 1, wasNonce);
        UpdateSettles(m, confirmed, wasNonce, wasBalance, balance);
      }
    }
  }

  lemma TrimIsPart(m: Items, end: nat, balance: nat)
    ensures forall n :: n in Trim(m, end, balance) ==> n in m
    ensures forall n :: n in m && n < end ==> n in Trim(m, end, balance)
  {
  }

  /** As long as no action paid for is past its deadline, none of them goes. */
  lemma FreshStay(items: Items, pendingNonce: nat, pendingBalance: nat, was: Items, wasNonce: nat, wasBalance: nat,
                  deadlines: map<nat, nat>, act: Action, ttl: nat, now: nat, confirmed: nat)
    requires Entered(items, pendingNonce, pendingBalance, was, wasNonce, wasBalance, deadlines, act, ttl, now)
    requires HasAll(was, confirmed + 1, wasNonce) && act.nonce !in was
    requires ttl == 0 || forall n :: n in was && n < wasNonce && n in deadlines ==> now <= deadlines[n]
    ensures HasAll(items, confirmed + 1, wasNonce)
  {
    hide Swept, EndOf, Cost, Trim;
    if act.nonce == wasNonce {
      var m :| Leaves(m, was[act.nonce := act], deadlines[act.nonce := now + ttl], ttl, now) &&
               RefreshedTo(items, pendingNonce, pendingBalance, m, wasNonce, wasBalance);
      TrimIsPart(m, pendingNonce, pendingBalance);
    }
  }

  /** The same, where an action not awaited, or no expiry at all, is no harm either. */
  ghost predicate Harmless(was: Items, wasNonce: nat, deadlines: map<nat, nat>, act: Action, ttl: nat, now: nat) {
    act.nonce != wasNonce || ttl == 0 || forall n :: n in was && n < wasNonce && n in deadlines ==> now <= deadlines[n]
  }

  /**
  What can be known before the call: whatever order the heap of deadlines has, a settled queue stays settled
  exactly if the action is not the awaited one, or no action paid for is past its deadline.
  */
  lemma KeepsSettledIff(was: Items, wasNonce: nat, wasBalance: nat, deadlines: map<nat, nat>, act: Action, ttl: nat,
                        now: nat, confirmed: nat, balance: nat)
    requires Settled(was, wasNonce, wasBalance, confirmed, balance) && deadlines.Keys == was.Keys
    requires confirmed < act.nonce && act.nonce !in was && act.cost <= wasBalance
    ensures (forall items, pendingNonce, pendingBalance ::
               Entered(items, pendingNonce, pendingBalance, was, wasNonce, wasBalance, deadlines, act, ttl, now) ==>
                 Settled(items, pendingNonce, pendingBalance, confirmed, balance)) <==>
            Harmless(was, wasNonce, deadlines, act, ttl, now)
  {
    hide Entered, Settled;
    if Harmless(was, wasNonce, deadlines, act, ttl, now) {
      forall items, pendingNonce, pendingBalance |
        Entered(items, pendingNonce, pendingBalance, was, wasNonce, wasBalance, deadlines, act, ttl, now)
        ensures Settled(items, pendingNonce, pendingBalance, confirmed, balance)
      {
        HarmlessSettles(items, pendingNonce, pendingBalance, was, wasNonce, wasBalance, deadlines, act, ttl, now,
                        confirmed, balance);
      }
    } else {
      var items, pendingNonce, pendingBalance :=
        Unsettles(was, wasNonce, wasBalance, deadlines, act, ttl, now, confirmed, balance);
    }
  }

  lemma HarmlessSettles(items: Items, pendingNonce: nat, pendingBalance: nat,
                        was: Items, wasNonce: nat, wasBalance: nat,
                        deadlines: map<nat, nat>, act: Action, ttl: nat, now: nat, confirmed: nat, balance: nat)
    requires Entered(items, pendingNonce, pendingBalance, was, wasNonce, wasBalance, deadlines, act, ttl, now)
    requires Settled(was, wasNonce, wasBalance, confirmed, balance)
    requires confirmed < act.nonce && act.nonce !in was && act.cost <= wasBalance
    requires Harmless(was, wasNonce, deadlines, act, ttl, now)
    ensures Settled(items, pendingNonce, pendingBalance, confirmed, balance)
  {
    StaysSettledIff(items, pendingNonce, pendingBalance, was, wasNonce, wasBalance, deadlines, act, ttl, now,
                    confirmed, balance);
    hide Leaves, RefreshedTo;
    if act.nonce == wasNonce {
      FreshStay(items, pendingNonce, pendingBalance, was, wasNonce, wasBalance, deadlines, act, ttl, now, confirmed);
    }
  }

  /** Else there is an order of the heap in which a sweep takes an action paid for. */
  lemma Unsettles(was: Items, wasNonce: nat, wasBalance: nat, deadlines: map<nat, nat>, act: Action, ttl: nat,
                  now: nat, confirmed: nat, balance: nat)
    returns (items: Items, pendingNonce: nat, pendingBalance: nat)
    requires Settled(was, wasNonce, wasBalance, confirmed, balance) && deadlines.Keys == was.Keys
    requires confirmed < act.nonce && act.nonce !in was && act.cost <= wasBalance
    requires !Harmless(was, wasNonce, deadlines, act, ttl, now)
    ensures Entered(items, pendingNonce, pendingBalance, was, wasNonce, wasBalance, deadlines, act, ttl, now)
    ensures !Settled(items, pendingNonce, pendingBalance, confirmed, balance)
  {
    hide IsHeap, Sweep, Bag, EndOf, Cost, Trim, AfterExpiry, Leaves;
    var due := deadlines[act.nonce := now + ttl];
    var more := was[act.nonce := act];
    SafeIff(due, wasNonce, now);
    assert exists n :: n in due && n < wasNonce && now > due[n] by {
      var n :| n in was && n < wasNonce && n in deadlines && now > deadlines[n];
      assert n in due && due[n] == deadlines[n];
    }
    var index :| HeapOf(index, due) && !SweepKeeps(index, due, wasNonce, now);
    var m := AfterExpiry(more, index, ttl, now);
    ExpiryLeaves(more, index, due, ttl, now);
    items, pendingNonce, pendingBalance := Update(m, wasNonce, wasBalance);
    var k :| k in due && k < wasNonce && k !in NoncesOf(Sweep(index, now));
    assert k in was && confirmed < k;
    assert k !in m by { GoneBySweep(more, index, ttl, now, k); }
    TrimIsPart(m, pendingNonce, pendingBalance);
    assert !HasAll(items, confirmed + 1, wasNonce);
    StaysSettledIff(items, pendingNonce, pendingBalance, was, wasNonce, wasBalance, deadlines, act, ttl, now,
                    confirmed, balance);
  }

  lemma Update(m: Items, start: nat, balance: nat) returns (items: Items, pendingNonce: nat, pendingBalance: nat)
    ensures RefreshedTo(items, pendingNonce, pendingBalance, m, start, balance)
  {
    EndIsTooDear(m, start, balance);
    pendingNonce := EndOf(m, start, balance);
    pendingBalance := balance - Cost(m, start, pendingNonce);
    items := Trim(m, pendingNonce, pendingBalance);
  }

  lemma GoneBySweep(items: Items, index: seq<Timed>, ttl: nat, now: nat, n: nat)
    requires ttl != 0
    ensures n in AfterExpiry(items, index, ttl, now) <==> n in items && n in NoncesOf(Sweep(index, now))
  {
  }

  /** What becomes of the queue as the code has it: the heap of deadlines gets one more entry and is then swept. */
  ghost predicate EnteredBy(items: Items, pendingNonce: nat, pendingBalance: nat,
                            was: Items, wasNonce: nat, wasBalance: nat, index: seq<Timed>,
                            act: Action, ttl: nat, now: nat) {
    var more := was[act.nonce := act];
    if act.nonce == wasNonce then
      RefreshedTo(items, pendingNonce, pendingBalance,
                  AfterExpiry(more, Pushed(index, NonceOf, Timed(act.nonce, now + ttl)), ttl, now),
                  wasNonce, wasBalance)
    else items == more && pendingNonce == wasNonce && pendingBalance == wasBalance
  }

  /** The sweep that an action brings about, if any, leaves the actions paid for. */
  ghost predicate Spared(was: Items, wasNonce: nat, index: seq<Timed>, act: Action, ttl: nat, now: nat) {
    || act.nonce != wasNonce
    || ttl == 0
    || var swept := Sweep(Pushed(index, NonceOf, Timed(act.nonce, now + ttl)), now);
    forall n :: n in was && n < wasNonce ==> n in NoncesOf(swept)
  }

  /** With the heap known, the actions paid for are all left exactly if the sweep leaves them. */
  lemma SparedIff(items: Items, pendingNonce: nat, pendingBalance: nat,
                  was: Items, wasNonce: nat, wasBalance: nat, index: seq<Timed>, act: Action, ttl: nat, now: nat,
                  confirmed: nat)
    requires EnteredBy(items, pendingNonce, pendingBalance, was, wasNonce, wasBalance, index, act, ttl, now)
    requires HasAll(was, confirmed + 1, wasNonce) && act.nonce !in was && forall n :: n in was ==> confirmed < n
    ensures HasAll(items, confirmed + 1, wasNonce) <==> Spared(was, wasNonce, index, act, ttl, now)
  {
    hide EndOf, Cost, Trim, Pushed, NoncesOf;
    if act.nonce == wasNonce {
      var more := was[act.nonce := act];
      var swept := Pushed(index, NonceOf, Timed(act.nonce, now + ttl));
      var m := AfterExpiry(more, swept, ttl, now);
      TrimIsPart(m, pendingNonce, pendingBalance);
      assert HasAll(items, confirmed + 1, wasNonce) <==> HasAll(m, confirmed + 1, wasNonce);
      assert ttl != 0 ==> forall n :: n in m <==> n in more && n in NoncesOf(Sweep(swept, now));
      assert HasAll(m, confirmed + 1, wasNonce) <==> forall n :: n in was && n < wasNonce ==> n in m;
    }
  }

  // ---- which actions a sweep can take

  ghost predicate SweepKeeps(index: seq<Timed>, due: map<nat, nat>, start: nat, now: nat) {
    forall n :: n in due && n < start ==> n in NoncesOf(Sweep(index, now))
  }

  ghost predicate HeapOf(index: seq<Timed>, due: map<nat, nat>) {
    IsHeap(index, NonceOf) && multiset(index) == Bag(due)
  }

  /** Whatever order the heap has, no action below a nonce goes: exactly if none of them is past its deadline. */
  lemma SafeIff(due: map<nat, nat>, start: nat, now: nat)
    ensures (forall index :: HeapOf(index, due) ==> SweepKeeps(index, due, start, now)) <==>
            (forall n :: n in due && n < start ==> now <= due[n])
  {
    hide IsHeap, Sweep, Bag;
    if forall n :: n in due && n < start ==> now <= due[n] {
      forall index | HeapOf(index, due) ensures SweepKeeps(index, due, start, now) {
        FreshAreKept(index, due, start, now);
      }
    } else {
      var n :| n in due && n < start && now > due[n];
      var index := InSequence(due);
      FirstGoes(index, due, n, now);
      assert HeapOf(index, due) && !SweepKeeps(index, due, start, now);
    }
  }

  lemma FreshAreKept(index: seq<Timed>, due: map<nat, nat>, start: nat, now: nat)
    requires multiset(index) == Bag(due) && forall n :: n in due && n < start ==> now <= due[n]
    ensures SweepKeeps(index, due, start, now)
  {
    hide Sweep;
    forall n | n in due && n < start ensures n in NoncesOf(Sweep(index, now)) {
      var t := Timed(n, due[n]);
      InBag(due, t);
      assert t in multiset(index);
      SweepIff(index, now);
      assert t in Sweep(index, now);
    }
  }

  /** The entries in order of their nonces, which is a heap. */
  lemma {:induction false} InSequence(due: map<nat, nat>) returns (index: seq<Timed>)
    ensures HeapOf(index, due) && Sorted(index, NonceOf)
    decreases |due|
  {
    hide IsHeap, Bag;
    if due == map[] {
      index := [];
      assert multiset(index) == Bag(due) by { NothingDue(); }
    } else {
      var n := Greatest(due.Keys);
      var rest := InSequence(due - {n});
      index := rest + [Timed(n, due[n])];
      OneMoreDue(rest, due, n);
    }
    SortedIsHeap(index, NonceOf);
  }

  lemma NothingDue()
    ensures Bag(map[]) == multiset{}
  {
  }

  lemma OneMoreDue(rest: seq<Timed>, due: map<nat, nat>, n: nat)
    requires n in due && (forall k :: k in due ==> k <= n)
    requires multiset(rest) == Bag(due - {n}) && Sorted(rest, NonceOf)
    ensures multiset(rest + [Timed(n, due[n])]) == Bag(due) && Sorted(rest + [Timed(n, due[n])], NonceOf)
  {
    hide Bag;
    BagRemove(due, n);
    InBag(due, Timed(n, due[n]));
    forall i | 0 <= i < |rest| ensures NonceOf(rest[i]) <= n {
      assert rest[i] in multiset(rest);
      InBag(due - {n}, rest[i]);
    }
  }

  lemma {:induction false} Greatest(s: set<nat>) returns (n: nat)
    requires s != {}
    ensures n in s && forall k :: k in s ==> k <= n
    decreases s
  {
    n :| n in s;
    if s != {n} {
      var m := Greatest(s - {n});
      assert forall k :: k in s ==> k == n || k in s - {n};
      if m > n { n := m; }
    }
  }

  /** In that order, the first expired entry goes, and it is no later than any other. */
  lemma FirstGoes(index: seq<Timed>, due: map<nat, nat>, n: nat, now: nat)
    requires multiset(index) == Bag(due) && Sorted(index, NonceOf) && n in due && now > due[n]
    ensures exists k :: k in due && k <= n && k !in NoncesOf(Sweep(index, now))
  {
    hide Bag, Sweep;
    var t := Timed(n, due[n]);
    InBag(due, t);
    assert t in multiset(index);
    var j :| 0 <= j < |index| && index[j] == t;
    var i := 0;
    while !Expired(index[i], now)
      invariant 0 <= i <= j && forall k :: 0 <= k < i ==> !Expired(index[k], now)
      decreases j - i
    {
      i := i + 1;
    }
    assert index[i] in multiset(index);
    InBag(due, index[i]);
    SortedAt(index, i, j);
    forall k, l | 0 <= k < l < |index| ensures index[k].nonce != index[l].nonce {
      NoncesDistinct(index, due, k, l);
    }
    SweptAt(index, i, now);
  }

  lemma {:induction false} SweptAt(index: seq<Timed>, i: nat, now: nat)
    requires i < |index| && Expired(index[i], now) && forall k :: 0 <= k < i ==> !Expired(index[k], now)
    requires forall k, l :: 0 <= k < l < |index| ==> index[k].nonce != index[l].nonce
    ensures index[i].nonce !in NoncesOf(Sweep(index, now))
    decreases i
  {
    var swept := Sweep(index, now);
    if i > 0 {
      var rest := index[1..];
      SweptAt(rest, i - 1, now);
      assert swept == [index[0]] + Sweep(rest, now);
      forall t | t in swept ensures t.nonce != index[i].nonce {
        if t != index[0] { assert t in Sweep(rest, now); assert t.nonce in NoncesOf(Sweep(rest, now)); }
      }
    } else {
      SweepIff(index[2 * (if |index| > 1 then 1 else 0)..], now);
      forall t | t in swept ensures t.nonce != index[0].nonce {
        if |index| > 1 {
          assert t == index[1] || t in Sweep(index[2..], now);
        }
      }
    }
  }

  /** What a sweep of the deadlines leaves of their actions. */
  lemma ExpiryLeaves(items: Items, index: seq<Timed>, deadlines: map<nat, nat>, ttl: nat, now: nat)
    requires HeapOf(index, deadlines) && deadlines.Keys == items.Keys
    ensures Leaves(AfterExpiry(items, index, ttl, now), items, deadlines, ttl, now)
  {
    hide IsHeap, Bag, Swept;
    DueHas(index, deadlines);
    SweepIff(index, now);
    if ttl != 0 { SweptIs(items, index, deadlines, ttl, now); }
    hide Sweep;
    forall n | n in items && n !in AfterExpiry(items, index, ttl, now)
      ensures ttl != 0 && n in deadlines && now > deadlines[n]
    {
      var t := Timed(n, deadlines[n]);
      assert t in index;
      assert t in Sweep(index, now) ==> t.nonce in NoncesOf(Sweep(index, now));
    }
  }

  lemma SweptIs(items: Items, index: seq<Timed>, deadlines: map<nat, nat>, ttl: nat, now: nat)
    requires HeapOf(index, deadlines) && deadlines.Keys == items.Keys && ttl != 0
    ensures Swept(AfterExpiry(items, index, ttl, now), deadlines, now)
  {
    hide IsHeap, Bag;
    var kept := NoncesOf(Sweep(index, now));
    assert kept <= items.Keys by {
      DueHas(index, deadlines);
      SweepIff(index, now);
    }
    assert AfterExpiry(items, index, ttl, now).Keys == kept;
  }

  /** A refreshed queue agrees with the chain, and offers the longest payable run. */
  lemma RefreshedOffers(items: Items, pendingNonce: nat, pendingBalance: nat,
                        was: Items, deadlines: map<nat, nat>, chain: Chain, a: Address, ttl: nat, now: nat)
    requires Refreshed(items, pendingNonce, pendingBalance, was, deadlines, chain, a, ttl, now)
    ensures Settled(items, pendingNonce, pendingBalance, chain.Nonce(a), chain.Balance(a))
    ensures LongestPayable(RunFrom(items, chain.Nonce(a) + 1), was, deadlines, chain, a, ttl, now)
  {
    hide Settled, RefreshedTo, IsLongestRun, EndOf, RunFrom;
    var c, b := chain.Nonce(a), chain.Balance(a);
    var m :| LeftAfterExpiry(m, was, deadlines, c, ttl, now) &&
             RefreshedTo(items, pendingNonce, pendingBalance, m, c + 1, b);
    RefreshedRun(items, pendingNonce, pendingBalance, m, c, b);
  }

  lemma RefreshedRun(items: Items, pendingNonce: nat, pendingBalance: nat, m: Items, c: nat, b: nat)
    requires RefreshedTo(items, pendingNonce, pendingBalance, m, c + 1, b) && forall n :: n in m ==> n > c
    ensures Settled(items, pendingNonce, pendingBalance, c, b)
    ensures IsLongestRun(RunFrom(items, c + 1), m, c + 1, b)
  {
    hide EndOf, Cost, RunFrom;
    assert HasAll(m, c + 1, c + 1);
    assert Cost(m, c + 1, c + 1) == 0 by { NoCost(m, c + 1); }
    UpdateSettles(m, c, c + 1, b, b);
    SettledRun(items, pendingNonce, pendingBalance, c, b);
    LongestRun(m, c + 1, b, pendingNonce);
    LongestRun(m, c + 1, b, pendingNonce + 1);
  }

  lemma NoCost(m: Items, n: nat)
    ensures HasAll(m, n, n) && Cost(m, n, n) == 0
  {
  }

  lemma NothingLeft(was: Items, deadlines: map<nat, nat>, chain: Chain, a: Address, ttl: nat, now: nat)
    requires forall n :: n in was ==> n <= chain.Nonce(a)
    ensures LongestPayable([], was, deadlines, chain, a, ttl, now)
    ensures NothingRefreshed(was, deadlines, chain, a, ttl, now)
  {
    var m: Items := map[];
    var none: seq<Timed> := [];
    assert Due(was, deadlines, chain.Nonce(a)) == map[] && Above(was, chain.Nonce(a) + 1) == map[];
    assert multiset(none) == Bag(map[]) && Sweep(none, now) == none && NoncesOf(none) == {};
    assert LeftAfterExpiry(m, was, deadlines, chain.Nonce(a), ttl, now);
    assert IsLongestRun([], m, chain.Nonce(a) + 1, chain.Balance(a)) by {
      LongestRun(m, chain.Nonce(a) + 1, chain.Balance(a), chain.Nonce(a) + 1);
      LongestRun(m, chain.Nonce(a) + 1, chain.Balance(a), chain.Nonce(a) + 2);
    }
    assert RefreshedTo(m, chain.Nonce(a) + 1, chain.Balance(a), m, chain.Nonce(a) + 1, chain.Balance(a)) by {
      NoCost(m, chain.Nonce(a) + 1);
    }
    assert Refreshed(m, chain.Nonce(a) + 1, chain.Balance(a), was, deadlines, chain, a, ttl, now);
  }

  /** What a reset leaves a queue to offer: nothing if the queue was dropped. */
  ghost predicate ResetTo(kept: bool, items: Items, was: Items, deadlines: map<nat, nat>, chain: Chain, a: Address,
                          ttl: nat, now: nat) {
    LongestPayable(if kept then RunFrom(items, chain.Nonce(a) + 1) else [], was, deadlines, chain, a, ttl, now)
  }

  ghost predicate IsLongestRun(acts: seq<Action>, m: Items, start: nat, balance: nat) {
    && Payable(m, start, start + |acts|, balance)
    && !Payable(m, start, start + |acts| + 1, balance)
    && (forall i :: 0 <= i < |acts| ==> acts[i] == m[start + i])
  }

  /** What the chain says of each account: the last confirmed nonce and the balance. */
  datatype Chain = Chain(nonces: map<Address, nat>, balances: map<Address, nat>) {
    function Nonce(a: Address): nat {
      if a in nonces then nonces[a] else 0
    }

    function Balance(a: Address): nat {
      if a in balances then balances[a] else 0
    }
  }
}

module ActPools {
  import opened Actions
  import opened ActQueueSpec
  import opened ActQueues
  import opened ActPoolSpec
  import opened Heaps
  import opened Counting

  datatype Status = Accepted | Invalid | Blacklisted | PoolFull | GasFull | Existing | PriceTooLow |
    DuplicateNonce | NonceTooLarge | InsufficientBalance

  /** Refused before the sender's queue is looked at. */
  predicate RefusedEarly(status: Status) {
    status in {Blacklisted, PoolFull, GasFull, Existing, PriceTooLow, Invalid}
  }

  const UINT64: nat := 0x1_0000_0000_0000_0000

  /** The verdict on an action against a queue: the window above the confirmed nonce is found by 64-bit arithmetic. */
  function Judgement(act: Action, items: Items, balance: nat, confirmed: nat, window: nat): Status {
    if act.nonce in items then DuplicateNonce
    else if (act.nonce - confirmed - 1) % UINT64 >= window then NonceTooLarge
    else if balance < act.cost then InsufficientBalance
    else Accepted
  }

  /** A call of the pool, at a time. */
  datatype Call = Adding(act: Action, passes: bool, now: nat) | Resetting(now: nat)

  ghost predicate NoneDueBefore(d: map<nat, nat>, until: nat) {
    forall n :: n in d ==> until <= d[n]
  }

  class ActPool {
    const maxActs: nat
    const maxGas: nat
    const maxPerAcct: nat
    const minPrice: nat
    const ttl: nat
    const blacklist: set<Address>
    var chain: Chain
    var accountActs: map<Address, ActQueue>
    var allActions: map<ActHash, Action>
    var gasInPool: nat

    ghost function AllItems(): Queues
      reads this`accountActs, accountActs.Values
    {
      map a | a in accountActs :: accountActs[a].items
    }

    /** Each account has its own queue. */
    ghost predicate Queued()
      reads this`accountActs, accountActs.Values
    {
      forall a :: a in accountActs ==>
        accountActs[a].Valid() && accountActs[a].address == a && accountActs[a].ttl == ttl
    }

    ghost predicate Valid()
      reads this, accountActs.Values
    {
      && Queued()
      && Books(AllItems(), allActions, gasInPool)
      && |allActions| <= maxActs && gasInPool <= maxGas
    }

    /** Every queue agrees with what the chain says now. */
    ghost predicate AllSettled()
      reads this, accountActs.Values
    {
      forall a :: a in accountActs ==> SettledAt(a)
    }

    ghost predicate SettledAt(a: Address)
      requires a in accountActs
      reads this, accountActs[a]
    {
      var q := accountActs[a];
      Settled(q.items, q.pendingNonce, q.pendingBalance, chain.Nonce(a), chain.Balance(a))
    }

    constructor (maxActs: nat, maxGas: nat, maxPerAcct: nat, minPrice: nat, ttl: nat, blacklist: set<Address>,
                 chain: Chain)
      ensures Valid() && AllSettled() && accountActs == map[] && allActions == map[] && gasInPool == 0
      ensures this.maxActs == maxActs && this.maxGas == maxGas && this.maxPerAcct == maxPerAcct
          && this.minPrice == minPrice
      ensures this.ttl == ttl && this.blacklist == blacklist && this.chain == chain
    {
      this.maxActs, this.maxGas, this.maxPerAcct := maxActs, maxGas, maxPerAcct;
      this.minPrice, this.ttl, this.blacklist, this.chain := minPrice, ttl, blacklist, chain;
      accountActs, allActions, gasInPool := map[], map[], 0;
    }

    /** Takes actions out of the table and their gas off the total. */
    method RemoveInvalidActs(acts: seq<Action>)
      requires forall i, j :: 0 <= i < j < |acts| ==> acts[i] != acts[j]
      requires forall x :: x in acts ==> HashOf(x) in allActions
      requires forall h :: h in allActions ==> allActions[h] == h.act
      requires gasInPool == GasSum(allActions.Keys)
      modifies this`allActions, this`gasInPool
      ensures allActions == old(allActions) - Hashes(acts)
      ensures gasInPool == GasSum(allActions.Keys) && gasInPool <= old(gasInPool)
    {
      for i := 0 to |acts|
        invariant allActions == old(allActions) - Hashes(acts[..i])
        invariant gasInPool == GasSum(allActions.Keys) && gasInPool <= old(gasInPool)
      {
        var h := HashOf(acts[i]);
        assert acts[i] in acts && acts[i] !in acts[..i];
        HashesAppend(acts, i);
        GasOfOne(allActions.Keys, h);
        assert (allActions - {h}).Keys == allActions.Keys - {h};
        allActions := allActions - {h};
        gasInPool := gasInPool - acts[i].gas;
      }
      assert acts[..|acts|] == acts;
    }

    /** Puts the books right after a queue gave up some actions, and drops the queue if nothing is left. */
    method SettleBooks(a: Address, removed: seq<Action>, ghost before: Queues)
      requires a in accountActs && Queued()
      requires a in before && AllItems() == before[a := accountActs[a].items]
      requires Books(before, allActions, gasInPool) && |allActions| <= maxActs && gasInPool <= maxGas
      requires Owned(before[a], a) && Splits(before[a], accountActs[a].items, removed)
      modifies this`allActions, this`gasInPool, this`accountActs
      ensures Valid()
      ensures accountActs == if old(accountActs[a]).items == map[] then old(accountActs) - {a} else old(accountActs)
    {
      hide Books, Splits, Hashes, Owned, ActQueue.Valid, AllItems, Queued;
      QueueShrinks(before, a, accountActs[a].items, removed, allActions, gasInPool);
      BooksList(before, allActions, gasInPool);
      ghost var all := allActions;
      RemoveInvalidActs(removed);
      assert allActions.Keys <= all.Keys;
      Fewer(allActions.Keys, all.Keys);
      DropIfEmpty(a);
    }

    method DropIfEmpty(a: Address)
      requires a in accountActs && Valid()
      modifies this`accountActs
      ensures Valid()
      ensures accountActs == if old(accountActs[a]).items == map[] then old(accountActs) - {a} else old(accountActs)
    {
      hide Books, ActQueue.Valid;
      var q := accountActs[a];
      if |q.items| == 0 {
        assert q.items == map[];
        ghost var was := AllItems();
        EmptyQueue(was, a, allActions, gasInPool);
        accountActs := accountActs - {a};
        assert AllItems() == was - {a};
      }
    }

    /** After one queue was changed, the items of the others are as before. */
    twostate lemma OneChanged(a: Address)
      requires old(Queued()) && old(a in accountActs) && accountActs == old(accountActs)
      requires accountActs[a].Valid()
      requires forall q: ActQueue :: q in accountActs.Values && q != accountActs[a] ==> unchanged(q)
      ensures Queued()
      ensures AllItems() == old(AllItems())[a := accountActs[a].items]
    {
      hide ActQueue.Valid;
      forall b | b in accountActs && b != a ensures unchanged(accountActs[b]) {
        assert accountActs[b].address == b;
        assert accountActs[b] in accountActs.Values;
      }
    }

    lemma QueueOf(a: Address)
      requires Queued() && a in accountActs
      ensures accountActs[a].Valid() && accountActs[a].ttl == ttl && accountActs[a].address == a
      ensures a in AllItems() && AllItems()[a] == accountActs[a].items && Owned(accountActs[a].items, a)
    {
    }

    /** Updates a queue from its pending nonce on. */
    method UpdateAccount(sender: Address, now: nat)
      requires Valid() && sender in accountActs
      modifies this`accountActs, this`allActions, this`gasInPool, accountActs[sender]
      ensures Valid()
      ensures var q := old(accountActs[sender]);
              var m := AfterExpiry(old(q.items), old(q.index), ttl, now);
              && accountActs == (if q.items == map[] then old(accountActs) - {sender} else old(accountActs))
              && RefreshedTo(q.items, q.pendingNonce, q.pendingBalance, m, old(q.pendingNonce), old(q.pendingBalance))
              && Within(q.deadlines, old(q.deadlines))
    {
      hide Books, Splits, RefreshedTo, AfterExpiry, ActQueue.Valid, AllItems, Queued, Within;
      QueueOf(sender);
      var queue := accountActs[sender];
      ghost var before := AllItems();
      var acts := queue.UpdateQueue(queue.pendingNonce, now);
      OneChanged(sender);
      SettleBooks(sender, acts, before);
    }

    /** Takes out of one queue the actions that are in the chain already. */
    method RemoveConfirmedOf(from: Address)
      requires Valid() && from in accountActs
      modifies this`accountActs, this`allActions, this`gasInPool, accountActs[from]
      ensures Valid()
      ensures var q := old(accountActs[from]);
              && accountActs == (if q.items == map[] then old(accountActs) - {from} else old(accountActs))
              && ConfirmedGone(q.items, q.deadlines, old(q.items), old(q.deadlines), chain.Nonce(from))
    {
      hide Books, Splits, ConfirmedGone, Above, AgreeOn, Within, ActQueue.Valid, AllItems, Queued;
      QueueOf(from);
      var queue := accountActs[from];
      ghost var before := AllItems();
      var acts := queue.FilterNonce(chain.Nonce(from) + 1);
      AboveThreshold(queue.items, queue.deadlines, old(queue.items), old(queue.deadlines), chain.Nonce(from));
      OneChanged(from);
      SettleBooks(from, acts, before);
    }

    lemma QueuesApart()
      requires Valid()
      ensures forall a, b :: a in accountActs && b in accountActs && a != b ==> accountActs[a] != accountActs[b]
    {
    }

    /** Takes out of every queue the actions that are in the chain already. */
    method RemoveConfirmedActs()
      requires Valid()
      modifies this`accountActs, this`allActions, this`gasInPool, accountActs.Values
      ensures Valid()
      ensures forall a :: a in accountActs ==> a in old(accountActs) && accountActs[a] == old(accountActs[a])
      ensures forall a :: a in old(accountActs) ==> var q := old(accountActs[a]);
                && (a in accountActs <==> q.items != map[])
                && ConfirmedGone(q.items, q.deadlines, old(q.items), old(q.deadlines), chain.Nonce(a))
    {
      hide Valid, Queued, ConfirmedGone, ActQueue.Valid, AllItems;
      ghost var queues := accountActs;
      QueuesApart();
      var todo := accountActs.Keys;
      while todo != {}
        invariant Valid() && todo <= accountActs.Keys
        invariant forall a :: a in accountActs ==> a in queues && accountActs[a] == queues[a]
        invariant forall a :: a in todo ==> unchanged(queues[a])
        invariant forall a :: a in queues && a !in todo ==> var q := queues[a];
                    && (a in accountActs <==> q.items != map[])
                    && ConfirmedGone(q.items, q.deadlines, old(q.items), old(q.deadlines), chain.Nonce(a))
        decreases todo
      {
        var from :| from in todo;
        RemoveConfirmedOf(from);
        todo := todo - {from};
      }
    }

    /** An account's queue, updated from the chain's nonce and balance. */
    twostate predicate RefreshedQueue(q: ActQueue, a: Address, now: nat)
      reads this`chain, q
    {
      && Within(q.deadlines, old(q.deadlines))
      && Refreshed(q.items, q.pendingNonce, q.pendingBalance, old(q.items), old(q.deadlines), chain, a, ttl, now)
    }

    /** Reads balance and nonce of an account from the chain again, and updates its queue from there. */
    method RefreshAccount(a: Address, now: nat)
      requires Valid() && a in accountActs
      requires OnlyAfter(accountActs[a].items, chain.Nonce(a))
      modifies this`accountActs, this`allActions, this`gasInPool, accountActs[a]
      ensures Valid()
      ensures var q := old(accountActs[a]);
              && accountActs == (if q.items == map[] then old(accountActs) - {a} else old(accountActs))
              && RefreshedQueue(q, a, now)
    {
      hide Books, RefreshedTo, AfterExpiry, AllItems, Queued, Leaves, Within;
      QueueOf(a);
      var queue := accountActs[a];
      ExpiryLeaves(queue.items, queue.index, queue.deadlines, ttl, now);
      AllDue(queue.items, queue.deadlines, chain.Nonce(a));
      ghost var m := AfterExpiry(queue.items, queue.index, ttl, now);
      assert LeftAfterExpiry(m, queue.items, queue.deadlines, chain.Nonce(a), ttl, now);
      hide LeftAfterExpiry;
      queue.pendingBalance := chain.Balance(a);
      queue.pendingNonce := chain.Nonce(a) + 1;
      OneChanged(a);
      assert AllItems() == old(AllItems());
      UpdateAccount(a, now);
    }

    /** Refreshes every account that is left. */
    method RefreshAll(now: nat)
      requires Valid()
      requires forall a :: a in accountActs ==> OnlyAfter(accountActs[a].items, chain.Nonce(a))
      modifies this`accountActs, this`allActions, this`gasInPool, accountActs.Values
      ensures Valid()
      ensures forall a :: a in accountActs ==> a in old(accountActs) && accountActs[a] == old(accountActs[a])
      ensures forall a :: a in old(accountActs) ==> var q := old(accountActs[a]);
                (a in accountActs <==> q.items != map[]) && RefreshedQueue(q, a, now)
    {
      hide Valid, Queued, Refreshed, ActQueue.Valid, AllItems, OnlyAfter, Within;
      ghost var queues := accountActs;
      QueuesApart();
      var todo := accountActs.Keys;
      while todo != {}
        invariant Valid() && todo <= accountActs.Keys
        invariant forall a :: a in accountActs ==> a in queues && accountActs[a] == queues[a]
        invariant forall a :: a in todo ==> unchanged(queues[a])
        invariant forall a :: a in queues && a !in todo ==> var q := queues[a];
                    (a in accountActs <==> q.items != map[]) && RefreshedQueue(q, a, now)
        decreases todo
      {
        var from :| from in todo;
        RefreshAccount(from, now);
        todo := todo - {from};
      }
    }

    /**
    Brings the pool in line with the chain. What each queue then offers is the
    longest run that the balance pays for, over what expiry leaves of the actions
    after the confirmed ones; a queue with nothing left is dropped.
    */
    method Reset(now: nat)
      requires Valid()
      modifies this`accountActs, this`allActions, this`gasInPool, accountActs.Values
      ensures Valid() && AllSettled()
      ensures forall a :: a in accountActs ==> a in old(accountActs) && accountActs[a] == old(accountActs[a])
      ensures accountActs.Values <= old(accountActs.Values)
      ensures forall a :: a in old(accountActs) ==> var q := old(accountActs[a]);
                && ResetTo(a in accountActs, q.items, old(q.items), old(q.deadlines), chain, a, ttl, now)
                && (a in accountActs ==> RefreshedQueue(q, a, now))
                && (a !in accountActs ==> NothingRefreshed(old(q.items), old(q.deadlines), chain, a, ttl, now))
    {
      hide Books, ActQueue.Valid, AllItems, Queued, Refreshed, ConfirmedGone, Settled, ResetTo, OnlyAfter, Within;
      hide NothingRefreshed;
      RemoveConfirmedActs();
      assert forall a :: a in accountActs ==> OnlyAfter(accountActs[a].items, chain.Nonce(a)) by {
        forall a | a in accountActs ensures OnlyAfter(accountActs[a].items, chain.Nonce(a)) {
          var q := accountActs[a];
          GoneIsAfter(q.items, q.deadlines, old(q.items), old(q.deadlines), chain.Nonce(a));
        }
      }
      label L:
      RefreshAll(now);
      forall a | a in old(accountActs)
        ensures var q := old(accountActs[a]);
                && (a in accountActs ==> SettledAt(a) && RefreshedQueue(q, a, now))
                && (a !in accountActs ==> NothingRefreshed(old(q.items), old(q.deadlines), chain, a, ttl, now))
                && ResetTo(a in accountActs, q.items, old(q.items), old(q.deadlines), chain, a, ttl, now)
      {
        var q := old(accountActs[a]);
        if a in old@L(accountActs) {
          AfterReset(q.items, q.pendingNonce, q.pendingBalance, old@L(q.items), old@L(q.deadlines),
                     old(q.items), old(q.deadlines), chain, a, ttl, now);
          StillWithin(q.deadlines, old@L(q.items), old@L(q.deadlines), old(q.items), old(q.deadlines), chain.Nonce(a));
        } else {
          AllConfirmed(old@L(q.items), old@L(q.deadlines), old(q.items), old(q.deadlines), chain, a, ttl, now);
        }
      }
    }

    /** For each account, the actions that can go into the next block: the longest run the balance pays for. */
    method PendingActionMap(now: nat) returns (actionMap: map<Address, seq<Action>>)
      requires Valid()
      modifies this`accountActs, this`allActions, this`gasInPool, accountActs.Values
      ensures Valid() && AllSettled()
      ensures actionMap.Keys == accountActs.Keys
      ensures forall a :: a in accountActs ==> a in old(accountActs) && accountActs[a] == old(accountActs[a])
      ensures accountActs.Values <= old(accountActs.Values)
      ensures forall a :: a in old(accountActs) ==> var q := old(accountActs[a]);
                && Offered(actionMap, a, old(q.items), old(q.deadlines), chain, ttl, now)
                && (a in accountActs ==> RefreshedQueue(q, a, now))
                && (a !in accountActs ==> NothingRefreshed(old(q.items), old(q.deadlines), chain, a, ttl, now))
      ensures forall a :: a in accountActs ==> actionMap[a] == RunFrom(accountActs[a].items, chain.Nonce(a) + 1)
    {
      hide ResetTo, AllSettled, Valid, Offered, Within, Refreshed, NothingRefreshed;
      Reset(now);
      actionMap := CollectPending();
      forall a | a in old(accountActs)
        ensures var q := old(accountActs[a]);
                Offered(actionMap, a, old(q.items), old(q.deadlines), chain, ttl, now)
      {
        var q := old(accountActs[a]);
        OfferedAfterReset(actionMap, a, q.items, old(q.items), old(q.deadlines), chain, ttl, now);
      }
    }

    method CollectPending() returns (actionMap: map<Address, seq<Action>>)
      requires Valid()
      ensures actionMap.Keys == accountActs.Keys
      ensures forall a :: a in accountActs ==> actionMap[a] == RunFrom(accountActs[a].items, chain.Nonce(a) + 1)
    {
      hide Books, AllItems, RunFrom, ActQueue.Valid;
      ghost var runs := map a | a in accountActs :: RunFrom(accountActs[a].items, chain.Nonce(a) + 1);
      actionMap := map[];
      var todo := accountActs.Keys;
      while todo != {}
        invariant todo <= accountActs.Keys && actionMap.Keys == accountActs.Keys - todo
        invariant forall a :: a in actionMap ==> actionMap[a] == runs[a]
        decreases todo
      {
        var from :| from in todo;
        var acts := accountActs[from].PendingActs(chain.Nonce(from));
        assert acts == runs[from];
        actionMap := actionMap[from := acts];
        todo := todo - {from};
      }
    }

    // ---- adding an action

    /** After one empty queue was added, the items of the others are as before. */
    twostate lemma OneOpened(a: Address)
      requires old(Queued()) && old(a !in accountActs)
      requires a in accountActs && accountActs - {a} == old(accountActs)
      requires accountActs[a].Valid() && accountActs[a].address == a && accountActs[a].ttl == ttl
          && accountActs[a].items == map[]
      requires forall b :: b in old(accountActs) ==> unchanged(old(accountActs[b]))
      ensures Queued()
      ensures AllItems() - {a} == old(AllItems()) && a in AllItems() && AllItems()[a] == map[]
    {
      hide ActQueue.Valid;
      forall b | b in accountActs && b != a ensures b in old(accountActs) && accountActs[b] == old(accountActs[b]) {
        assert b in accountActs - {a};
      }
    }

    /** The queue of an account, with a new one if it has none. */
    method OpenAccount(sender: Address) returns (queue: ActQueue)
      requires Valid()
      modifies this`accountActs
      ensures Valid() && sender in accountActs && accountActs[sender] == queue
      ensures sender in old(accountActs) ==> accountActs == old(accountActs)
      ensures sender !in old(accountActs) ==>
                && accountActs == old(accountActs)[sender := queue] && fresh(queue)
                && queue.items == map[] && queue.index == [] && queue.deadlines == map[]
                && queue.pendingNonce == chain.Nonce(sender) + 1 && queue.pendingBalance == chain.Balance(sender)
    {
      hide Books, AllItems, Queued;
      if sender in accountActs {
        return accountActs[sender];
      }
      queue := new ActQueue(sender, ttl);
      queue.pendingNonce := chain.Nonce(sender) + 1;
      queue.pendingBalance := chain.Balance(sender);
      accountActs := accountActs[sender := queue];
      assert accountActs - {sender} == old(accountActs);
      OneOpened(sender);
      EmptyQueue(AllItems(), sender, allActions, gasInPool);
    }

    /** Puts an action into its sender's queue and into the books. */
    method Admit(act: Action, now: nat)
      requires Valid() && act.sender in accountActs && act.nonce !in accountActs[act.sender].items
      requires |allActions| < maxActs && gasInPool + act.gas <= maxGas
      modifies this`allActions, this`gasInPool, accountActs[act.sender]
      ensures Valid() && HashOf(act) in allActions
      ensures var q := accountActs[act.sender];
              && q.items == old(q.items)[act.nonce := act]
              && q.deadlines == old(q.deadlines)[act.nonce := now + ttl]
              && q.index == Pushed(old(q.index), NonceOf, Timed(act.nonce, now + ttl))
              && q.pendingNonce == old(q.pendingNonce) && q.pendingBalance == old(q.pendingBalance)
    {
      hide Books, ActQueue.Valid, AllItems, Queued;
      QueueOf(act.sender);
      var queue := accountActs[act.sender];
      ghost var before := AllItems();
      var ok := queue.Put(act, now);
      OneChanged(act.sender);
      QueueGrows(before, allActions, gasInPool, act, queue.items);
      allActions := allActions[HashOf(act) := act];
      gasInPool := gasInPool + act.gas;
    }

    /** Admits an action and, if it is the one that was awaited, moves the pending nonce on. */
    method AdmitAndUpdate(act: Action, now: nat)
      requires Valid() && act.sender in accountActs && act.nonce !in accountActs[act.sender].items
      requires |allActions| < maxActs && gasInPool + act.gas <= maxGas
      requires act.cost <= accountActs[act.sender].pendingBalance
      modifies this`accountActs, this`allActions, this`gasInPool, accountActs[act.sender]
      ensures Valid()
      ensures accountActs == old(accountActs) && HashOf(act) in allActions
      ensures var q := accountActs[act.sender];
              && Entered(q.items, q.pendingNonce, q.pendingBalance,
                         old(q.items), old(q.pendingNonce), old(q.pendingBalance), old(q.deadlines), act, ttl, now)
              && EnteredBy(q.items, q.pendingNonce, q.pendingBalance,
                           old(q.items), old(q.pendingNonce), old(q.pendingBalance), old(q.index), act, ttl, now)
              && Within(q.deadlines, old(q.deadlines)[act.nonce := now + ttl])
    {
      hide Books, AllItems, Queued, RefreshedTo, Leaves, AfterExpiry, Pushed;
      var queue := accountActs[act.sender];
      ghost var was, start, rest, deadlines := queue.items, queue.pendingNonce, queue.pendingBalance, queue.deadlines;
      Admit(act, now);
      if act.nonce == queue.pendingNonce {
        QueueOf(act.sender);
        ExpiryLeaves(queue.items, queue.index, queue.deadlines, ttl, now);
        UpdateAccount(act.sender, now);
      }
      EnteredHas(queue.items, queue.pendingNonce, queue.pendingBalance, was, start, rest, deadlines, act, ttl, now);
      InTable(act, queue);
    }

    lemma InTable(act: Action, queue: ActQueue)
      requires Valid() && act.nonce in queue.items && queue.items[act.nonce] == act
      requires act.sender in accountActs && accountActs[act.sender] == queue
      ensures HashOf(act) in allActions
    {
      QueueOf(act.sender);
      assert InQueues(AllItems(), HashOf(act).act);
    }

    /** What becomes of an action that passed the other checks. */
    ghost function Verdict(act: Action): Status
      reads this, accountActs.Values
    {
      Judgement(act, ItemsOf(act.sender), BalanceOf(act.sender), chain.Nonce(act.sender), maxPerAcct)
    }

    /** The actions queued for an account, none if it has no queue. */
    ghost function ItemsOf(a: Address): Items
      reads this`accountActs, accountActs.Values
    {
      if a in accountActs then accountActs[a].items else map[]
    }

    /** What an account has left to spend: its queue's pending balance, or all of it if it has no queue. */
    ghost function BalanceOf(a: Address): nat
      reads this`chain, this`accountActs, accountActs.Values
    {
      if a in accountActs then accountActs[a].pendingBalance else chain.Balance(a)
    }

    /** The nonce is one of the next so many after the confirmed one. */
    ghost predicate Next(act: Action)
      reads this`chain
    {
      chain.Nonce(act.sender) < act.nonce <= chain.Nonce(act.sender) + maxPerAcct
    }

    /** Nonces and the window above the confirmed one fit into 64 bits. */
    ghost predicate Fits(act: Action)
      reads this`chain
    {
      act.nonce < UINT64 && chain.Nonce(act.sender) + maxPerAcct < UINT64
    }

    /** The action is not the one its sender's queue awaits, or no action paid for is past its deadline. */
    ghost predicate HarmlessNow(act: Action, now: nat)
      reads this, accountActs.Values
    {
      act.sender in accountActs ==>
        var q := accountActs[act.sender];
        Harmless(q.items, q.pendingNonce, q.deadlines, act, ttl, now)
    }

    /** The sweep that the action brings about, if any, leaves the actions paid for. */
    ghost predicate SparedNow(act: Action, now: nat)
      reads this, accountActs.Values
    {
      act.sender in accountActs ==>
        var q := accountActs[act.sender];
        Spared(q.items, q.pendingNonce, q.index, act, ttl, now)
    }

    /** All actions of the account that its balance was charged for are still there. */
    twostate predicate PaidKept(a: Address)
      reads this, accountActs.Values
    {
      a in old(accountActs) ==>
        a in accountActs && HasAll(accountActs[a].items, chain.Nonce(a) + 1, old(accountActs[a].pendingNonce))
    }

    method EnqueueAction(act: Action, now: nat) returns (status: Status)
      requires Valid() && |allActions| < maxActs && gasInPool + act.gas <= maxGas
      modifies this`accountActs, this`allActions, this`gasInPool, accountActs.Values
      ensures Valid() && status == old(Verdict(act))
      ensures OthersKept(act.sender)
      ensures status != Accepted ==> allActions == old(allActions) && SenderKept(act.sender)
      ensures status == Accepted ==> HashOf(act) in allActions && TookIn(act, now)
      ensures fresh(accountActs.Values - old(accountActs.Values))
      ensures Fits(act) && old(AllSettled()) ==> (AllSettled() <==> PaidKept(act.sender))
      ensures Fits(act) && old(AllSettled()) ==> (AllSettled() <==> status != Accepted || old(SparedNow(act, now)))
      ensures Fits(act) && old(AllSettled() && HarmlessNow(act, now)) ==> AllSettled()
    {
      hide Valid, AllSettled, Entered, EnteredBy, Within, Judgement;
      var queue := OpenAccount(act.sender);
      if old(AllSettled()) {
        OpenedSettled(act.sender, queue);
      }
      status := TakeOrRefuse(act, queue, now);
    }

    /** The checks on nonce and cost, against the sender's queue. */
    method TakeOrRefuse(act: Action, queue: ActQueue, now: nat) returns (status: Status)
      requires Valid() && |allActions| < maxActs && gasInPool + act.gas <= maxGas
      requires act.sender in accountActs && accountActs[act.sender] == queue
      modifies this`accountActs, this`allActions, this`gasInPool, queue
      ensures Valid() && status == old(Verdict(act)) && accountActs == old(accountActs)
      ensures forall b :: b in accountActs && b != act.sender ==> accountActs[b] != queue
      ensures status != Accepted ==> unchanged(queue) && allActions == old(allActions)
      ensures status == Accepted ==>
                && HashOf(act) in allActions
                && Entered(queue.items, queue.pendingNonce, queue.pendingBalance, old(queue.items),
                           old(queue.pendingNonce), old(queue.pendingBalance), old(queue.deadlines), act, ttl, now)
                && EnteredBy(queue.items, queue.pendingNonce, queue.pendingBalance, old(queue.items),
                             old(queue.pendingNonce), old(queue.pendingBalance), old(queue.index), act, ttl, now)
                && Within(queue.deadlines, old(queue.deadlines)[act.nonce := now + ttl])
      ensures Fits(act) && old(AllSettled()) ==>
                (AllSettled() <==> HasAll(queue.items, chain.Nonce(act.sender) + 1, old(queue.pendingNonce)))
      ensures Fits(act) && old(AllSettled()) ==> (AllSettled() <==> status != Accepted || old(SparedNow(act, now)))
      ensures Fits(act) && old(AllSettled() && HarmlessNow(act, now)) ==> AllSettled()
    {
      hide Books, AllItems, Settled, ActQueue.Valid, Entered, EnteredBy, Within, Spared, Harmless;
      var confirmed := chain.Nonce(act.sender);
      assert forall b :: b in accountActs && b != act.sender ==> accountActs[b] != queue;
      if AllSettled() { SettledHas(act.sender); }
      if act.nonce in queue.items {
        return DuplicateNonce;
      }
      if (act.nonce - confirmed - 1) % UINT64 >= maxPerAcct {
        return NonceTooLarge;
      }
      if queue.pendingBalance < act.cost {
        return InsufficientBalance;
      }
      TakeIn(act, queue, now);
      return Accepted;
    }

    /** Admits an action that passed all checks. */
    method TakeIn(act: Action, queue: ActQueue, now: nat)
      requires Valid() && |allActions| < maxActs && gasInPool + act.gas <= maxGas
      requires act.sender in accountActs && accountActs[act.sender] == queue
      requires act.nonce !in queue.items && act.cost <= queue.pendingBalance
      requires (act.nonce - chain.Nonce(act.sender) - 1) % UINT64 < maxPerAcct
      modifies this`accountActs, this`allActions, this`gasInPool, queue
      ensures Valid() && accountActs == old(accountActs) && HashOf(act) in allActions
      ensures Entered(queue.items, queue.pendingNonce, queue.pendingBalance, old(queue.items),
                      old(queue.pendingNonce), old(queue.pendingBalance), old(queue.deadlines), act, ttl, now)
      ensures EnteredBy(queue.items, queue.pendingNonce, queue.pendingBalance, old(queue.items),
                        old(queue.pendingNonce), old(queue.pendingBalance), old(queue.index), act, ttl, now)
      ensures Within(queue.deadlines, old(queue.deadlines)[act.nonce := now + ttl])
      ensures Fits(act) && old(AllSettled()) ==>
                (AllSettled() <==> HasAll(queue.items, chain.Nonce(act.sender) + 1, old(queue.pendingNonce)))
      ensures Fits(act) && old(AllSettled()) ==> (AllSettled() <==> old(SparedNow(act, now)))
      ensures Fits(act) && old(AllSettled() && HarmlessNow(act, now)) ==> AllSettled()
    {
      hide Books, AllItems, Settled, ActQueue.Valid, Entered, EnteredBy, Within, Spared, Harmless;
      var confirmed := chain.Nonce(act.sender);
      assert forall b :: b in accountActs && b != act.sender ==> accountActs[b] != queue;
      if AllSettled() { SettledHas(act.sender); }
      AdmitAndUpdate(act, now);
      if Fits(act) && old(AllSettled()) {
        InWindow(act.nonce, confirmed, maxPerAcct);
        StaysSettledIff(queue.items, queue.pendingNonce, queue.pendingBalance,
                        old(queue.items), old(queue.pendingNonce), old(queue.pendingBalance), old(queue.deadlines),
                        act, ttl, now, confirmed, chain.Balance(act.sender));
        SparedIff(queue.items, queue.pendingNonce, queue.pendingBalance,
                  old(queue.items), old(queue.pendingNonce), old(queue.pendingBalance), old(queue.index),
                  act, ttl, now, confirmed);
        if old(HarmlessNow(act, now)) {
          HarmlessSettles(queue.items, queue.pendingNonce, queue.pendingBalance, old(queue.items),
                          old(queue.pendingNonce), old(queue.pendingBalance), old(queue.deadlines), act, ttl, now,
                          confirmed, chain.Balance(act.sender));
        }
      }
    }

    lemma SettledHas(a: Address)
      requires AllSettled()
      ensures a in accountActs ==>
                && HasAll(accountActs[a].items, chain.Nonce(a) + 1, accountActs[a].pendingNonce)
                && forall n :: n in accountActs[a].items ==> chain.Nonce(a) < n
    {
    }

    /** The queues of the other accounts are as they were. */
    twostate predicate OthersKept(a: Address)
      reads this, accountActs.Values
    {
      forall b :: b != a ==>
        && (b in accountActs <==> b in old(accountActs))
        && (b in accountActs ==> accountActs[b] == old(accountActs[b]) && unchanged(accountActs[b]))
    }

    /** So is this account's, if it had one; else it has an empty one now. */
    twostate predicate SenderKept(a: Address)
      reads this, accountActs.Values
    {
      && a in accountActs
      && var q := accountActs[a];
      if a in old(accountActs) then q == old(accountActs[a]) && unchanged(q)
      else
        && q.items == map[] && q.deadlines == map[]
        && q.pendingNonce == chain.Nonce(a) + 1 && q.pendingBalance == chain.Balance(a)
    }

    twostate predicate AllKept()
      reads this, accountActs.Values
    {
      accountActs == old(accountActs) && forall b :: b in accountActs ==> unchanged(accountActs[b])
    }

    /** The sender's queue, opened from the chain if there was none, has taken the action in. */
    twostate predicate TookIn(act: Action, now: nat)
      reads this, accountActs.Values
    {
      var a := act.sender;
      var known := a in old(accountActs);
      && a in accountActs
      && var q := accountActs[a];
      var was := if known then old(accountActs[a].items) else map[];
      var wasNonce := if known then old(accountActs[a].pendingNonce) else chain.Nonce(a) + 1;
      var wasBalance := if known then old(accountActs[a].pendingBalance) else chain.Balance(a);
      var index := if known then old(accountActs[a].index) else [];
      var deadlines := if known then old(accountActs[a].deadlines) else map[];
      && Entered(q.items, q.pendingNonce, q.pendingBalance, was, wasNonce, wasBalance, deadlines, act, ttl, now)
      && EnteredBy(q.items, q.pendingNonce, q.pendingBalance, was, wasNonce, wasBalance, index, act, ttl, now)
      && Within(q.deadlines, deadlines[act.nonce := now + ttl])
    }

    /** A new queue agrees with the chain. */
    twostate lemma OpenedSettled(a: Address, new queue: ActQueue)
      requires old(AllSettled()) && a in accountActs && accountActs[a] == queue
      requires chain == old(chain)
      requires a in old(accountActs) ==> accountActs == old(accountActs)
      requires a !in old(accountActs) ==>
                 && accountActs == old(accountActs)[a := queue] && queue.items == map[]
                 && queue.pendingNonce == chain.Nonce(a) + 1 && queue.pendingBalance == chain.Balance(a)
      requires forall b :: b in old(accountActs) ==> unchanged(old(accountActs[b]))
      ensures AllSettled()
    {
      if a !in old(accountActs) { NoCost(map[], chain.Nonce(a) + 1); }
    }

    /** Checks an action and puts it into the pool; `passes` is the verdict of the validators. */
    method Add(act: Action, now: nat, passes: bool) returns (status: Status)
      requires Valid()
      modifies this`accountActs, this`allActions, this`gasInPool, accountActs.Values
      ensures Valid()
      ensures status == old(if act.sender in blacklist then Blacklisted
                            else if |allActions| >= maxActs then PoolFull
                            else if gasInPool + act.gas > maxGas then GasFull
                            else if HashOf(act) in allActions then Existing
                            else if act.price < minPrice then PriceTooLow
                            else if !passes then Invalid
                            else Verdict(act))
      ensures Fits(act) && !RefusedEarly(status) ==>
                && (status == Accepted <==>
                    act.nonce !in old(ItemsOf(act.sender)) && Next(act) && act.cost <= old(BalanceOf(act.sender)))
                && (status == InsufficientBalance <==>
                    act.nonce !in old(ItemsOf(act.sender)) && Next(act) && act.cost > old(BalanceOf(act.sender)))
                && (status == NonceTooLarge <==> act.nonce !in old(ItemsOf(act.sender)) && !Next(act))
                && (status == DuplicateNonce <==> act.nonce in old(ItemsOf(act.sender)))
      ensures OthersKept(act.sender)
      ensures status != Accepted ==> allActions == old(allActions)
      ensures RefusedEarly(status) ==> AllKept()
      ensures status != Accepted && !RefusedEarly(status) ==> SenderKept(act.sender)
      ensures status != Accepted ==> (AllKept() <==> RefusedEarly(status) || act.sender in old(accountActs))
      ensures status == Accepted ==> HashOf(act) in allActions && TookIn(act, now)
      ensures fresh(accountActs.Values - old(accountActs.Values))
      ensures Fits(act) && old(AllSettled()) ==> (AllSettled() <==> PaidKept(act.sender))
      ensures Fits(act) && old(AllSettled()) ==> (AllSettled() <==> status != Accepted || old(SparedNow(act, now)))
      ensures Fits(act) && old(AllSettled() && HarmlessNow(act, now)) ==> AllSettled()
    {
      hide Valid, AllSettled, TookIn, Judgement;
      if AllSettled() { SettledHas(act.sender); }
      JudgementMeans(act, ItemsOf(act.sender), BalanceOf(act.sender), chain.Nonce(act.sender), maxPerAcct);
      if act.sender in blacklist {
        return Blacklisted;
      }
      if |allActions| >= maxActs {
        return PoolFull;
      }
      if gasInPool + act.gas > maxGas {
        return GasFull;
      }
      if HashOf(act) in allActions {
        return Existing;
      }
      if act.price < minPrice {
        return PriceTooLow;
      }
      if !passes {
        return Invalid;
      }
      status := EnqueueAction(act, now);
    }

    // ---- runs of calls

    /** No action that is in the pool expires before a time; with no expiry none does. */
    ghost predicate Fresh(until: nat)
      reads this`accountActs, accountActs.Values
    {
      ttl == 0 || forall a :: a in accountActs ==> NoneDueBefore(accountActs[a].deadlines, until)
    }

    /** The call is not after a time at which an action it adds is still fresh, and its nonce fits into 64 bits. */
    ghost predicate InTime(call: Call, until: nat)
      reads this`chain
    {
      call.Adding? ==> Fits(call.act) && (ttl == 0 || call.now <= until <= call.now + ttl)
    }

    lemma FreshIsHarmless(act: Action, now: nat, until: nat)
      requires Fresh(until) && (ttl == 0 || now <= until)
      ensures HarmlessNow(act, now)
    {
    }

    /**
    Every run of calls within one expiry time, on an unchanged chain: all queues agree with the chain throughout, so
    that pending balance and costs of the run add up to the balance.
    */
    method StaysSettled(calls: seq<Call>, until: nat)
      requires Valid() && AllSettled() && Fresh(until)
      requires forall i :: 0 <= i < |calls| ==> InTime(calls[i], until)
      modifies this`accountActs, this`allActions, this`gasInPool, accountActs.Values
      ensures Valid() && AllSettled() && Fresh(until)
      ensures fresh(accountActs.Values - old(accountActs.Values))
    {
      hide Valid, AllSettled, Fresh, Fits;
      for i := 0 to |calls|
        invariant Valid() && AllSettled() && Fresh(until)
        invariant fresh(accountActs.Values - old(accountActs.Values))
      {
        match calls[i] {
          case Adding(act, passes, now) => AddInTime(act, passes, now, until);
          case Resetting(now) => ResetInTime(now, until);
        }
      }
    }

    method AddInTime(act: Action, passes: bool, now: nat, until: nat)
      requires Valid() && AllSettled() && Fresh(until) && InTime(Adding(act, passes, now), until)
      modifies this`accountActs, this`allActions, this`gasInPool, accountActs.Values
      ensures Valid() && AllSettled() && Fresh(until)
      ensures fresh(accountActs.Values - old(accountActs.Values))
    {
      hide Valid, AllSettled, PaidKept, SparedNow, Verdict, Entered, EnteredBy;
      FreshIsHarmless(act, now, until);
      hide HarmlessNow;
      var status := Add(act, now, passes);
    }

    method ResetInTime(now: nat, until: nat)
      requires Valid() && Fresh(until)
      modifies this`accountActs, this`allActions, this`gasInPool, accountActs.Values
      ensures Valid() && AllSettled() && Fresh(until)
      ensures accountActs.Values <= old(accountActs.Values)
    {
      hide Valid, AllSettled, ResetTo, Within, NoneDueBefore;
      Reset(now);
      forall a | a in accountActs && ttl != 0 ensures NoneDueBefore(accountActs[a].deadlines, until) {
        FreshWithin(accountActs[a].deadlines, old(accountActs[a].deadlines), until);
      }
    }
  }

  /** A first action that costs too much is refused, and its account has an empty queue in the pool. */
  method RefusedFirst(act: Action) returns (status: Status, accounts: set<Address>)
    requires 0 < act.cost && 0 < act.nonce < UINT64
    ensures status == InsufficientBalance && accounts == {act.sender}
  {
    hide ActPool.Valid, ActPool.AllSettled, ActPool.TookIn, ActPool.PaidKept, ActPool.SparedNow, ActPool.HarmlessNow;
    var pool := new ActPool(1, act.gas, act.nonce, 0, 0, {}, Chain(map[], map[]));
    status := pool.Add(act, 0, true);
    accounts := pool.accountActs.Keys;
    assert forall b :: b in pool.accountActs ==> b == act.sender;
  }

  lemma FreshWithin(d: map<nat, nat>, e: map<nat, nat>, until: nat)
    requires Within(d, e) && NoneDueBefore(e, until)
    ensures NoneDueBefore(d, until)
  {
  }

  /**
  A paid action expires and the awaited one comes: the sweep takes the first, and its cost is not given back. Both
  actions are accepted, and the queue no longer agrees with the chain.
  */
  method ExpiryUnsettles(a: Address) returns (pool: ActPool, first: Status, second: Status)
    ensures fresh(pool) && pool.Valid() && first == second == Accepted && !pool.AllSettled()
  {
    hide ActPool.Valid, ActPool.AllSettled, ActPool.TookIn, ActPool.PaidKept, ActPool.OthersKept, ActPool.SenderKept;
    hide ActPool.HarmlessNow, ActPool.AllKept, Spared;
    var one, two := Action(a, 1, 1, 0, 0, 0), Action(a, 2, 1, 0, 0, 0);
    pool, first := PaidUntilOne(one);
    NotSpared(one, two);
    second := pool.Add(two, 5, true);
  }

  /** A pool with one action, paid for, that expires after time 1. */
  method PaidUntilOne(one: Action) returns (pool: ActPool, status: Status)
    requires one.nonce == one.cost == 1 && one.gas == 0
    ensures fresh(pool) && pool.Valid() && pool.AllSettled() && fresh(pool.accountActs.Values) && status == Accepted
    ensures pool.chain == Chain(map[], map[one.sender := 2]) && pool.ttl == 1 && pool.minPrice == 0
    ensures pool.maxActs == pool.maxPerAcct == 2 && pool.maxGas == pool.gasInPool == 0 && pool.blacklist == {}
    ensures pool.allActions.Keys == {HashOf(one)} && one.sender in pool.accountActs
    ensures var q := pool.accountActs[one.sender];
            q.items == map[1 := one] && q.pendingNonce == 2 && q.pendingBalance == 1 && q.index == [Timed(1, 1)]
  {
    hide ActPool.Valid, ActPool.AllSettled, EnteredBy, Within;
    pool := new ActPool(2, 0, 2, 0, 1, {}, Chain(map[], map[one.sender := 2]));
    status := AddFirst(pool, one);
    OnePaid(pool, one);
  }

  /** An action added to a pool with no queues. */
  method AddFirst(pool: ActPool, one: Action) returns (status: Status)
    requires pool.Valid() && pool.accountActs == map[] && pool.allActions == map[] && pool.gasInPool == 0
    requires pool.chain == Chain(map[], map[one.sender := 2]) && one.nonce == one.cost == 1 && one.gas == 0
    requires pool.ttl == 1 && pool.minPrice == 0 && pool.maxActs == pool.maxPerAcct == 2 && pool.blacklist == {}
    modifies pool`accountActs, pool`allActions, pool`gasInPool
    ensures status == Accepted && pool.Valid() && pool.AllSettled() && fresh(pool.accountActs.Values)
    ensures pool.accountActs.Keys == {one.sender}
    ensures var q := pool.accountActs[one.sender];
            && EnteredBy(q.items, q.pendingNonce, q.pendingBalance, map[], 1, 2, [], one, 1, 0)
            && Within(q.deadlines, map[][1 := 0 + 1])
  {
    hide ActPool.Valid, ActPool.PaidKept, ActPool.SenderKept, ActPool.AllKept, ActPool.SparedNow;
    hide Entered, EnteredBy, Harmless, Within, Settled;
    assert pool.Verdict(one) == Accepted;
    hide ActPool.Verdict;
    status := pool.Add(one, 0, true);
  }

  lemma OnePaid(pool: ActPool, one: Action)
    requires pool.Valid() && pool.accountActs.Keys == {one.sender} && one.nonce == one.cost == 1
    requires var q := pool.accountActs[one.sender];
             && EnteredBy(q.items, q.pendingNonce, q.pendingBalance, map[], 1, 2, [], one, 1, 0)
             && Within(q.deadlines, map[][1 := 0 + 1])
    ensures var q := pool.accountActs[one.sender];
            q.items == map[1 := one] && q.pendingNonce == 2 && q.pendingBalance == 1 && q.index == [Timed(1, 1)]
    ensures pool.allActions.Keys == {HashOf(one)} && pool.gasInPool == one.gas
  {
    hide EnteredBy, Within, Books;
    var q := pool.accountActs[one.sender];
    OneTaken(q.items, q.pendingNonce, q.pendingBalance, one);
    assert map[][1 := 0 + 1] == map[1 := 1];
    OneDue(q.index, q.deadlines);
    OneListed(pool.AllItems(), pool.allActions, pool.gasInPool, one);
  }

  lemma OneTaken(items: Items, pendingNonce: nat, pendingBalance: nat, one: Action)
    requires one.nonce == one.cost == 1
    requires EnteredBy(items, pendingNonce, pendingBalance, map[], 1, 2, [], one, 1, 0)
    ensures items == map[1 := one] && pendingNonce == 2 && pendingBalance == 1
  {
    var more: Items := map[1 := one];
    var index := Pushed([], NonceOf, Timed(1, 1));
    assert index == [] + [Timed(1, 1)] == [Timed(1, 1)];
    assert Sweep(index, 0) == [Timed(1, 1)];
    assert Timed(1, 1) in Sweep(index, 0);
    assert AfterExpiry(more, index, 1, 0) == more;
    assert EndOf(more, 2, 1) == 2;
    assert Cost(more, 1, 1) == 0 && Cost(more, 1, 2) == 1;
  }

  lemma OneDue(index: seq<Timed>, deadlines: map<nat, nat>)
    requires multiset(index) == Bag(deadlines) && deadlines.Keys == {1} && Within(deadlines, map[1 := 1])
    ensures index == [Timed(1, 1)]
  {
    DueHas(index, deadlines);
    assert Timed(1, 1) in index;
    assert forall k :: 0 <= k < |index| ==> index[k] in index;
    assert |index| > 1 ==> index[0].nonce == index[1].nonce;
  }

  lemma OneListed(queues: Queues, all: map<ActHash, Action>, gas: nat, one: Action)
    requires Books(queues, all, gas) && queues.Keys == {one.sender} && queues[one.sender] == map[one.nonce := one]
    ensures all.Keys == {HashOf(one)} && gas == one.gas
  {
    forall h: ActHash ensures h in all <==> h == HashOf(one) {
      assert InQueues(queues, h.act) <==> h.act == one;
    }
    GasOfOne(all.Keys, HashOf(one));
    assert all.Keys - {HashOf(one)} == {};
  }

  lemma NotSpared(one: Action, two: Action)
    requires two.nonce == 2
    ensures !Spared(map[1 := one], 2, [Timed(1, 1)], two, 1, 5)
  {
    var index := [Timed(1, 1)] + [Timed(2, 6)];
    assert Pushed([Timed(1, 1)], NonceOf, Timed(2, 6)) == index;
    assert index[2..] == [] && Sweep(index[2..], 5) == [];
    assert Sweep(index, 5) == [Timed(2, 6)];
    assert NoncesOf(Sweep(index, 5)) == {2};
    var was: Items := map[1 := one];
    assert 1 in was && 1 !in NoncesOf(Sweep(index, 5));
  }

  /** Where nothing wraps around, the 64-bit test is for the next so many nonces after the confirmed one. */
  lemma InWindow(nonce: nat, confirmed: nat, window: nat)
    requires nonce < UINT64 && confirmed + window < UINT64
    ensures (nonce - confirmed - 1) % UINT64 < window <==> confirmed < nonce <= confirmed + window
  {
    if nonce <= confirmed {
      assert (nonce - confirmed - 1) % UINT64 == nonce - confirmed - 1 + UINT64;
    } else {
      assert (nonce - confirmed - 1) % UINT64 == nonce - confirmed - 1;
    }
  }

  /** Which action is taken and why another is not, in plain numbers. */
  lemma JudgementMeans(act: Action, items: Items, balance: nat, confirmed: nat, window: nat)
    ensures !RefusedEarly(Judgement(act, items, balance, confirmed, window))
    ensures act.nonce < UINT64 && confirmed + window < UINT64 ==>
              var status := Judgement(act, items, balance, confirmed, window);
              var next := confirmed < act.nonce <= confirmed + window;
              && (status == Accepted <==> act.nonce !in items && next && act.cost <= balance)
              && (status == InsufficientBalance <==> act.nonce !in items && next && act.cost > balance)
              && (status == NonceTooLarge <==> act.nonce !in items && !next)
              && (status == DuplicateNonce <==> act.nonce in items)
  {
    if act.nonce < UINT64 && confirmed + window < UINT64 { InWindow(act.nonce, confirmed, window); }
  }

  /** The map offers for an account exactly its longest payable run. */
  ghost predicate Offered(actionMap: map<Address, seq<Action>>, a: Address, was: Items, deadlines: map<nat, nat>,
                          chain: Chain, ttl: nat, now: nat) {
    LongestPayable(if a in actionMap then actionMap[a] else [], was, deadlines, chain, a, ttl, now)
  }

  lemma OfferedAfterReset(actionMap: map<Address, seq<Action>>, a: Address, items: Items, was: Items,
                          deadlines: map<nat, nat>, chain: Chain, ttl: nat, now: nat)
    requires ResetTo(a in actionMap, items, was, deadlines, chain, a, ttl, now)
    requires a in actionMap ==> actionMap[a] == RunFrom(items, chain.Nonce(a) + 1)
    ensures Offered(actionMap, a, was, deadlines, chain, ttl, now)
  {
  }

  lemma GoneIsAfter(items: Items, deadlines: map<nat, nat>, was: Items, wasDeadlines: map<nat, nat>, confirmed: nat)
    requires ConfirmedGone(items, deadlines, was, wasDeadlines, confirmed)
    ensures OnlyAfter(items, confirmed)
  {
  }

  lemma StillWithin(d: map<nat, nat>, mid: Items, midDeadlines: map<nat, nat>, was: Items, deadlines: map<nat, nat>,
                    confirmed: nat)
    requires Within(d, midDeadlines) && ConfirmedGone(mid, midDeadlines, was, deadlines, confirmed)
    ensures Within(d, deadlines)
  {
  }

  ghost predicate OnlyAfter(items: Items, confirmed: nat) {
    forall n :: n in items ==> n > confirmed
  }

  /** What a reset makes of a queue that had actions left after the confirmed ones were gone. */
  lemma AfterReset(items: Items, pendingNonce: nat, pendingBalance: nat, mid: Items, midDeadlines: map<nat, nat>,
                   was: Items, deadlines: map<nat, nat>, chain: Chain, a: Address, ttl: nat, now: nat)
    requires Refreshed(items, pendingNonce, pendingBalance, mid, midDeadlines, chain, a, ttl, now)
    requires ConfirmedGone(mid, midDeadlines, was, deadlines, chain.Nonce(a))
    ensures Settled(items, pendingNonce, pendingBalance, chain.Nonce(a), chain.Balance(a))
    ensures ResetTo(true, items, was, deadlines, chain, a, ttl, now)
    ensures Refreshed(items, pendingNonce, pendingBalance, was, deadlines, chain, a, ttl, now)
    ensures items == map[] ==>
              ResetTo(false, items, was, deadlines, chain, a, ttl, now) &&
              NothingRefreshed(was, deadlines, chain, a, ttl, now)
  {
    hide Refreshed, Settled, LongestPayable;
    RefreshedAfterGone(items, pendingNonce, pendingBalance, mid, midDeadlines, was, deadlines, chain, a, ttl, now);
    RefreshedOffers(items, pendingNonce, pendingBalance, was, deadlines, chain, a, ttl, now);
    assert items == map[] ==> RunFrom(items, chain.Nonce(a) + 1) == [];
  }

  lemma AllConfirmed(mid: Items, midDeadlines: map<nat, nat>, was: Items, deadlines: map<nat, nat>, chain: Chain,
                     a: Address, ttl: nat, now: nat)
    requires mid == map[] && ConfirmedGone(mid, midDeadlines, was, deadlines, chain.Nonce(a))
    ensures forall items :: ResetTo(false, items, was, deadlines, chain, a, ttl, now)
    ensures NothingRefreshed(was, deadlines, chain, a, ttl, now)
  {
    hide LongestPayable, NothingRefreshed;
    NothingLeft(was, deadlines, chain, a, ttl, now);
  }

  lemma SameDue(mid: Items, midDeadlines: map<nat, nat>, was: Items, deadlines: map<nat, nat>, confirmed: nat)
    requires ConfirmedGone(mid, midDeadlines, was, deadlines, confirmed)
    ensures Due(mid, midDeadlines, confirmed) == Due(was, deadlines, confirmed)
    ensures Above(mid, confirmed + 1) == Above(was, confirmed + 1)
  {
  }

  lemma RefreshedAfterGone(items: Items, pendingNonce: nat, pendingBalance: nat, mid: Items,
                           midDeadlines: map<nat, nat>, was: Items, deadlines: map<nat, nat>, chain: Chain,
                           a: Address, ttl: nat, now: nat)
    requires Refreshed(items, pendingNonce, pendingBalance, mid, midDeadlines, chain, a, ttl, now)
    requires ConfirmedGone(mid, midDeadlines, was, deadlines, chain.Nonce(a))
    ensures Refreshed(items, pendingNonce, pendingBalance, was, deadlines, chain, a, ttl, now)
  {
    hide RefreshedTo;
    var c := chain.Nonce(a);
    var m :| LeftAfterExpiry(m, mid, midDeadlines, c, ttl, now) &&
             RefreshedTo(items, pendingNonce, pendingBalance, m, c + 1, chain.Balance(a));
    SameDue(mid, midDeadlines, was, deadlines, c);
    hide Leaves, Due;
    assert LeftAfterExpiry(m, was, deadlines, c, ttl, now);
  }

  /** With nothing confirmed left in the queue, that is all of it. */
  lemma AllDue(items: Items, deadlines: map<nat, nat>, confirmed: nat)
    requires deadlines.Keys == items.Keys && OnlyAfter(items, confirmed)
    ensures Above(items, confirmed + 1) == items && Due(items, deadlines, confirmed) == deadlines
  {
  }

  lemma AboveThreshold(items: Items, deadlines: map<nat, nat>, was: Items, wasDeadlines: map<nat, nat>, confirmed: nat)
    requires items == Above(was, confirmed + 1)
    requires AgreeOn(items, deadlines, wasDeadlines) && Within(deadlines, wasDeadlines)
    ensures ConfirmedGone(items, deadlines, was, wasDeadlines, confirmed)
  {
  }

  lemma HashesAppend(acts: seq<Action>, i: nat)
    requires i < |acts|
    ensures Hashes(acts[..i + 1]) == Hashes(acts[..i]) + {HashOf(acts[i])}
    ensures acts[i] !in acts[..i] ==> HashOf(acts[i]) !in Hashes(acts[..i])
  {
    assert acts[..i + 1] == acts[..i] + [acts[i]];
    assert forall x :: x in acts[..i + 1] <==> x in acts[..i] || x == acts[i];
    assert acts[i] in acts[..i + 1];
  }
}
