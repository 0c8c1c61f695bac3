/** Signed actions as the action pool sees them. */
module Actions {
  datatype Address = Address(id: nat)

  /** `body` stands for all that is not needed here; the hash covers the whole action. */
  datatype Action = Action(sender: Address, nonce: nat, cost: nat, gas: nat, price: nat, body: nat)

  datatype ActHash = HashOf(act: Action)
}

/**
What one account's queue of actions comes to (actpool/actqueue.go), on maps
from nonces to actions.
*/
module ActQueueSpec {
  import opened Actions

  type Items = map<nat, Action>

  datatype Timed = Timed(nonce: nat, deadline: nat)

  ghost function From(items: Items, n: nat): set<nat> {
    set k | k in items && k >= n
  }

  /** The first nonce from `n` on that is missing or too dear for what is left of the balance. */
  ghost function EndOf(items: Items, n: nat, balance: nat): (end: nat)
    ensures n <= end
    decreases From(items, n)
  {
    if n in items && items[n].cost <= balance then
      assert n in From(items, n) && n !in From(items, n + 1);
      EndOf(items, n + 1, balance - items[n].cost)
    else n
  }

  ghost predicate HasAll(items: Items, from: nat, upto: nat) {
    forall k :: from <= k < upto ==> k in items
  }

  ghost function Cost(items: Items, from: nat, upto: nat): nat
    requires HasAll(items, from, upto)
    decreases upto
  {
    if upto <= from then 0 else Cost(items, from, upto - 1) + items[upto - 1].cost
  }

  /** The actions with nonces from `start` up to `end` are there and the balance pays for them. */
  ghost predicate Payable(items: Items, start: nat, end: nat, balance: nat) {
    start <= end && HasAll(items, start, end) && Cost(items, start, end) <= balance
  }

  lemma {:induction false} CostFirst(items: Items, from: nat, upto: nat)
    requires from < upto && HasAll(items, from, upto)
    ensures HasAll(items, from + 1, upto)
    ensures Cost(items, from, upto) == items[from].cost + Cost(items, from + 1, upto)
    decreases upto
  {
    if upto > from + 1 { CostFirst(items, from, upto - 1); }
  }

  lemma {:induction false} CostSplit(items: Items, from: nat, mid: nat, upto: nat)
    requires from <= mid <= upto && HasAll(items, from, upto)
    ensures HasAll(items, from, mid) && HasAll(items, mid, upto)
    ensures Cost(items, from, upto) == Cost(items, from, mid) + Cost(items, mid, upto)
    decreases upto
  {
    if upto > mid { CostSplit(items, from, mid, upto - 1); }
  }

  lemma {:induction false} CostSame(a: Items, b: Items, from: nat, upto: nat)
    requires HasAll(a, from, upto) && HasAll(b, from, upto)
    requires forall k :: from <= k < upto ==> a[k] == b[k]
    ensures Cost(a, from, upto) == Cost(b, from, upto)
    decreases upto
  {
    if upto > from { CostSame(a, b, from, upto - 1); }
  }

  /** The runs the balance pays for are exactly those that end no later than EndOf: it ends the longest one. */
  lemma {:induction false} LongestRun(items: Items, start: nat, balance: nat, end: nat)
    ensures Payable(items, start, end, balance) <==> start <= end <= EndOf(items, start, balance)
    decreases From(items, start)
  {
    if start in items && items[start].cost <= balance {
      assert start in From(items, start) && start !in From(items, start + 1);
      LongestRun(items, start + 1, balance - items[start].cost, end);
      if end > start && HasAll(items, start, end) { CostFirst(items, start, end); }
      if end > start && HasAll(items, start + 1, end) { CostFirst(items, start, end); }
    } else if start < end && Payable(items, start, end, balance) {
      assert start in items;
      CostFirst(items, start, end);
    }
  }

  /** What is kept once the run ends: later actions up to the first the rest of the balance cannot pay alone. */
  ghost function Trim(items: Items, end: nat, balance: nat): Items {
    map n | n in items && Affordable(items, end, n, balance) :: items[n]
  }

  ghost predicate Affordable(items: Items, end: nat, n: nat, balance: nat) {
    forall k :: k in items && end <= k <= n ==> items[k].cost <= balance
  }

  /** What an update makes of the actions `m`, from a nonce and a balance. */
  ghost predicate RefreshedTo(items: Items, pendingNonce: nat, pendingBalance: nat, m: Items, start: nat,
                              balance: nat) {
    && pendingNonce == EndOf(m, start, balance)
    && Payable(m, start, pendingNonce, balance)
    && pendingBalance == balance - Cost(m, start, pendingNonce)
    && items == Trim(m, pendingNonce, pendingBalance)
  }

  /** An update drops an action exactly if one past the run, no later than it, costs more than is left. */
  lemma RefreshedKeeps(items: Items, pendingNonce: nat, pendingBalance: nat, m: Items, start: nat, balance: nat)
    requires RefreshedTo(items, pendingNonce, pendingBalance, m, start, balance)
    ensures forall n :: n in items <==>
              n in m && !exists k :: k in m && pendingNonce <= k <= n && m[k].cost > pendingBalance
    ensures forall n :: n in items ==> items[n] == m[n]
    ensures forall n :: n in m && n < pendingNonce ==> n in items
  {
  }

  /** The pending state of a queue agrees with what the chain says of the account. */
  ghost predicate Settled(items: Items, pendingNonce: nat, pendingBalance: nat, confirmed: nat, balance: nat) {
    && confirmed < pendingNonce
    && HasAll(items, confirmed + 1, pendingNonce)
    && pendingBalance + Cost(items, confirmed + 1, pendingNonce) == balance
    && pendingNonce !in items
    && (forall n :: n in items ==> confirmed < n)
    && (forall n :: n in items && n >= pendingNonce ==> items[n].cost <= pendingBalance)
  }

  /** The state after an update that starts at a settled prefix. */
  lemma UpdateSettles(items: Items, confirmed: nat, start: nat, rest: nat, balance: nat)
    requires confirmed < start && HasAll(items, confirmed + 1, start)
    requires rest + Cost(items, confirmed + 1, start) == balance
    requires forall n :: n in items ==> confirmed < n
    ensures var end := EndOf(items, start, rest);
            && Payable(items, start, end, rest)
            && var left := rest - Cost(items, start, end);
            Settled(Trim(items, end, left), end, left, confirmed, balance)
  {
    var end := EndOf(items, start, rest);
    LongestRun(items, start, rest, end);
    LongestRun(items, start, rest, end + 1);
    var left := rest - Cost(items, start, end);
    var to := Trim(items, end, left);
    if end in items {
      assert HasAll(items, start, end + 1);
      assert Cost(items, start, end + 1) == Cost(items, start, end) + items[end].cost;
    }
    assert HasAll(items, confirmed + 1, end) by {
      forall k | confirmed + 1 <= k < end ensures k in items {
        if k < start { assert HasAll(items, confirmed + 1, start); } else { assert HasAll(items, start, end); }
      }
    }
    assert HasAll(to, confirmed + 1, end);
    CostSplit(items, confirmed + 1, start, end);
    CostSame(items, to, confirmed + 1, end);
  }

  /** One more action elsewhere in the queue, cheap enough alone, keeps the queue settled. */
  lemma PutSettles(items: Items, pendingNonce: nat, pendingBalance: nat, confirmed: nat, balance: nat, act: Action)
    requires Settled(items, pendingNonce, pendingBalance, confirmed, balance)
    requires confirmed < act.nonce && act.nonce !in items && act.cost <= pendingBalance
    ensures act.nonce != pendingNonce ==>
              Settled(items[act.nonce := act], pendingNonce, pendingBalance, confirmed, balance)
    ensures HasAll(items[act.nonce := act], confirmed + 1, pendingNonce)
    ensures pendingBalance + Cost(items[act.nonce := act], confirmed + 1, pendingNonce) == balance
  {
    CostSame(items, items[act.nonce := act], confirmed + 1, pendingNonce);
  }

  /** The consecutive actions from a nonce on. */
  ghost function RunFrom(items: Items, n: nat): seq<Action>
    decreases From(items, n)
  {
    if n in items then
      assert n in From(items, n) && n !in From(items, n + 1);
      [items[n]] + RunFrom(items, n + 1)
    else []
  }

  /** The actions with nonces from `start` up to `end`. */
  ghost function Range(items: Items, start: nat, end: nat): (r: seq<Action>)
    requires start <= end && HasAll(items, start, end)
    ensures |r| == end - start && forall i :: 0 <= i < |r| ==> r[i] == items[start + i]
  {
    seq(end - start, i requires 0 <= i < end - start => items[start + i])
  }

  lemma {:induction false} RunFromIsRange(items: Items, start: nat, end: nat)
    requires start <= end && HasAll(items, start, end) && end !in items
    ensures RunFrom(items, start) == Range(items, start, end)
    decreases end - start
  {
    if start < end {
      RunFromIsRange(items, start + 1, end);
    }
  }

  /** A settled queue offers exactly the longest run of actions that the balance pays for. */
  lemma SettledRun(items: Items, pendingNonce: nat, pendingBalance: nat, confirmed: nat, balance: nat)
    requires Settled(items, pendingNonce, pendingBalance, confirmed, balance)
    ensures RunFrom(items, confirmed + 1) == Range(items, confirmed + 1, pendingNonce)
    ensures pendingNonce == EndOf(items, confirmed + 1, balance)
  {
    RunFromIsRange(items, confirmed + 1, pendingNonce);
    LongestRun(items, confirmed + 1, balance, pendingNonce);
    LongestRun(items, confirmed + 1, balance, EndOf(items, confirmed + 1, balance));
  }

  ghost function Above(items: Items, threshold: nat): Items {
    map n | n in items && n >= threshold :: items[n]
  }

  ghost predicate AgreeOn(items: Items, d: map<nat, nat>, e: map<nat, nat>) {
    forall n :: n in items ==> n in d && n in e && d[n] == e[n]
  }

  /** Deadlines are only ever forgotten. */
  ghost predicate Within(d: map<nat, nat>, e: map<nat, nat>) {
    forall n :: n in d ==> n in e && d[n] == e[n]
  }

  // ---- what an operation removes

  /** `removed` lists exactly the actions that are in `from` and not in `to`, each once. */
  ghost predicate Splits(from: Items, to: Items, removed: seq<Action>) {
    && (forall n :: n in to ==> n in from && from[n] == to[n])
    && (forall a :: a in removed ==> a.nonce in from && from[a.nonce] == a && a.nonce !in to)
    && (forall n :: n in from && n !in to ==> from[n] in removed)
    && (forall i, j :: 0 <= i < j < |removed| ==> removed[i] != removed[j])
  }

  lemma SplitsOneMore(from: Items, to: Items, removed: seq<Action>, n: nat)
    requires Splits(from, to, removed) && n in to && to[n].nonce == n
    ensures Splits(from, to - {n}, removed + [to[n]])
  {
    var more := removed + [to[n]];
    assert to[n] == more[|removed|];
    forall k | k in from && k !in to - {n} ensures from[k] in more {
      if k in to { assert k == n; } else { assert from[k] in removed; }
    }
  }

  lemma SplitsThen(a: Items, b: Items, c: Items, first: seq<Action>, second: seq<Action>)
    requires Splits(a, b, first) && Splits(b, c, second)
    ensures Splits(a, c, first + second)
  {
    forall n | n in a && n !in c ensures a[n] in first + second {
      if n in b { assert b[n] in second; } else { assert a[n] in first; }
    }
    forall x | x in first + second ensures x.nonce in a && a[x.nonce] == x && x.nonce !in c {
      assert x in first || x in second;
    }
    var all := first + second;
    forall i, j | 0 <= i < j < |all| ensures all[i] != all[j] {
      if i < |first| <= j {
        assert all[i] in first && all[j] in second;
      }
    }
  }

  // ---- expiry

  predicate Expired(t: Timed, now: nat) {
    now > t.deadline
  }

  /** The sweep as written: an entry that follows a removed one is not looked at. */
  function Sweep(s: seq<Timed>, now: nat): seq<Timed> {
    if s == [] then []
    else if !Expired(s[0], now) then [s[0]] + Sweep(s[1..], now)
    else if |s| == 1 then []
    else [s[1]] + Sweep(s[2..], now)
  }

  ghost predicate NoTwoExpired(s: seq<Timed>, now: nat) {
    forall i, j :: 0 <= i < j < |s| && j == i + 1 ==> !(Expired(s[i], now) && Expired(s[j], now))
  }

  /** Only expired entries go; all of them go exactly when no two of them stand side by side. */
  lemma {:induction false} SweepIff(s: seq<Timed>, now: nat)
    ensures forall t :: t in Sweep(s, now) ==> t in s
    ensures forall t :: t in s && !Expired(t, now) ==> t in Sweep(s, now)
    ensures (forall t :: t in Sweep(s, now) ==> !Expired(t, now)) <==> NoTwoExpired(s, now)
    decreases |s|
  {
    if s == [] {
    } else if !Expired(s[0], now) {
      SweepIff(s[1..], now);
      assert s == [s[0]] + s[1..];
      ShorterPairs(s, now, 1);
    } else if |s| > 1 {
      SweepIff(s[2..], now);
      assert s == [s[0], s[1]] + s[2..];
      ShorterPairs(s, now, 2);
    }
  }

  lemma ShorterPairs(s: seq<Timed>, now: nat, k: nat)
    requires 1 <= k <= 2 && k <= |s|
    requires k == 1 ==> !Expired(s[0], now)
    requires k == 2 ==> Expired(s[0], now)
    ensures NoTwoExpired(s, now) <==> NoTwoExpired(s[k..], now) && (k == 2 ==> !Expired(s[1], now))
  {
    if NoTwoExpired(s, now) {
      forall i, j | 0 <= i < j < |s[k..]| && j == i + 1
        ensures !(Expired(s[k..][i], now) && Expired(s[k..][j], now))
      {
        assert s[k..][i] == s[i + k] && s[k..][j] == s[j + k];
      }
    } else {
      var i, j :| 0 <= i < j < |s| && j == i + 1 && Expired(s[i], now) && Expired(s[j], now);
      if i >= k { assert s[k..][i - k] == s[i] && s[k..][j - k] == s[j]; }
    }
  }
}

/** One account's queue of actions, as the object the pool keeps (actpool/actqueue.go). */
module ActQueues {
  import opened Actions
  import opened ActQueueSpec
  import opened Heaps

  function NonceOf(t: Timed): int {
    t.nonce
  }

  /** Two expired actions: a heap of which the sweep leaves the second. */
  lemma SweepLeavesExpired()
    ensures var index := [Timed(1, 0), Timed(2, 0)];
            && IsHeap(index, NonceOf) && Expired(index[0], 1) && Expired(index[1], 1)
            && Sweep(index, 1) == [Timed(2, 0)]
  {
    var index := [Timed(1, 0), Timed(2, 0)];
    assert index[2..] == [] && Sweep(index[2..], 1) == [];
  }

  /** The entries of an index, each nonce once. */
  ghost function Bag(deadlines: map<nat, nat>): multiset<Timed> {
    multiset(set n | n in deadlines.Keys :: Timed(n, deadlines[n]))
  }

  lemma BagAdd(d: map<nat, nat>, n: nat, t: nat)
    requires n !in d
    ensures Bag(d[n := t]) == Bag(d) + multiset{Timed(n, t)}
  {
    var s := set k | k in d.Keys :: Timed(k, d[k]);
    var to := d[n := t];
    var u := set k | k in to.Keys :: Timed(k, to[k]);
    assert n in to.Keys && to[n] == t;
    assert forall k :: k in d.Keys ==> k in to.Keys && to[k] == d[k];
    assert u == s + {Timed(n, t)};
    assert Timed(n, t) !in s;
  }

  lemma BagRemove(d: map<nat, nat>, n: nat)
    requires n in d
    ensures Bag(d - {n}) == Bag(d) - multiset{Timed(n, d[n])}
  {
    BagAdd(d - {n}, n, d[n]);
    assert (d - {n})[n := d[n]] == d;
  }

  lemma InBag(d: map<nat, nat>, t: Timed)
    ensures t in Bag(d) <==> t.nonce in d && d[t.nonce] == t.deadline
  {
  }

  /** The index and the items of an account's queue hold the same nonces, each once. */
  ghost predicate Indexes(bag: multiset<Timed>, deadlines: map<nat, nat>, items: Items, address: Address) {
    && bag == Bag(deadlines)
    && deadlines.Keys == items.Keys
    && (forall n :: n in items ==> items[n].nonce == n && items[n].sender == address)
  }

  lemma OneMore(bag: multiset<Timed>, d: map<nat, nat>, items: Items, address: Address, act: Action, t: nat)
    requires Indexes(bag, d, items, address) && act.nonce !in items && act.sender == address
    ensures Indexes(bag + multiset{Timed(act.nonce, t)}, d[act.nonce := t], items[act.nonce := act], address)
  {
    BagAdd(d, act.nonce, t);
  }

  /** Taking one entry and its action out. */
  lemma OneLess(bag: multiset<Timed>, rest: multiset<Timed>, d: map<nat, nat>, items: Items, address: Address, t: Timed)
    requires Indexes(bag, d, items, address) && rest + multiset{t} == bag
    ensures t.nonce in items && items[t.nonce].nonce == t.nonce
    ensures Indexes(rest, d - {t.nonce}, items - {t.nonce}, address)
  {
    assert t in bag;
    InBag(d, t);
    BagRemove(d, t.nonce);
    assert rest == bag - multiset{t};
  }

  lemma IndexHas(s: seq<Timed>, d: map<nat, nat>, items: Items, address: Address)
    requires Indexes(multiset(s), d, items, address)
    ensures forall t :: t in s ==> t.nonce in items
    ensures forall n :: n in items ==> n in d && Timed(n, d[n]) in s
    ensures NoncesOf(s) == items.Keys
    ensures forall i, j :: 0 <= i < j < |s| ==> s[i].nonce != s[j].nonce
  {
    DueHas(s, d);
  }

  /** The index lists exactly the deadlines, each nonce once. */
  lemma DueHas(s: seq<Timed>, d: map<nat, nat>)
    requires multiset(s) == Bag(d)
    ensures forall t :: t in s <==> t.nonce in d && d[t.nonce] == t.deadline
    ensures forall n :: n in d ==> Timed(n, d[n]) in s
    ensures NoncesOf(s) == d.Keys
    ensures forall i, j :: 0 <= i < j < |s| ==> s[i].nonce != s[j].nonce
  {
    forall t: Timed ensures t in s <==> t.nonce in d && d[t.nonce] == t.deadline {
      InBag(d, t);
      assert t in s <==> t in multiset(s);
    }
    forall n | n in d ensures n in NoncesOf(s) { assert Timed(n, d[n]) in s; }
    hide Bag, NoncesOf;
    forall i, j | 0 <= i < j < |s| ensures s[i].nonce != s[j].nonce {
      NoncesDistinct(s, d, i, j);
    }
  }

  lemma NoncesDistinct(s: seq<Timed>, d: map<nat, nat>, i: nat, j: nat)
    requires multiset(s) == Bag(d) && i < j < |s|
    ensures s[i].nonce != s[j].nonce
  {
    InBag(d, s[i]);
    InBag(d, s[j]);
    assert s == s[..i] + [s[i]] + s[i + 1..j] + [s[j]] + s[j + 1..];
    assert s[i] in multiset(s) && s[j] in multiset(s);
    assert s[i] == s[j] ==> multiset(s)[s[i]] >= 2;
  }

  ghost function NoncesOf(s: seq<Timed>): set<nat> {
    set t | t in s :: t.nonce
  }

  /** What an update finds after the sweep of expired actions. */
  ghost function AfterExpiry(items: Items, index: seq<Timed>, ttl: nat, now: nat): Items {
    if ttl == 0 then items else map n | n in items && n in NoncesOf(Sweep(index, now)) :: items[n]
  }

  lemma TailNonces(s: seq<Timed>, i: nat, k: nat)
    requires i <= |s| && k < |s|
    requires forall a, b :: 0 <= a < b < |s| ==> s[a].nonce != s[b].nonce
    ensures s[k].nonce in NoncesOf(s[i..]) <==> k >= i
  {
    if k >= i {
      assert s[i..][k - i] == s[k];
      assert s[k] in s[i..];
    } else {
      forall t | t in s[i..] ensures t.nonce != s[k].nonce {
        var m :| 0 <= m < |s[i..]| && s[i..][m] == t;
        assert t == s[i + m];
      }
    }
  }

  lemma PlaceOf(s: seq<Timed>, n: nat) returns (k: nat)
    requires n in NoncesOf(s)
    ensures k < |s| && s[k].nonce == n
  {
    var t :| t in s && t.nonce == n;
    k :| 0 <= k < |s| && s[k] == t;
  }

  /** Cutting a sorted index at the first action that is past the run and too dear trims the queue. */
  lemma CutIsTrim(s: seq<Timed>, items: Items, end: nat, balance: nat, i: nat)
    requires Sorted(s, NonceOf) && NoncesOf(s) == items.Keys && i <= |s|
    requires forall k :: 0 <= k < |s| ==> s[k].nonce in items
    requires forall j, k :: 0 <= j < k < |s| ==> s[j].nonce != s[k].nonce
    requires forall k :: 0 <= k < i && s[k].nonce >= end ==> items[s[k].nonce].cost <= balance
    requires i < |s| ==> s[i].nonce >= end && items[s[i].nonce].cost > balance
    ensures Trim(items, end, balance) == map n | n in items && n !in NoncesOf(s[i..]) :: items[n]
  {
    forall n | n in items ensures Affordable(items, end, n, balance) <==> n !in NoncesOf(s[i..]) {
      var k := PlaceOf(s, n);
      TailNonces(s, i, k);
      if k < i {
        forall x | x in items && end <= x <= n ensures items[x].cost <= balance {
          var l := PlaceOf(s, x);
          assert l > k ==> NonceOf(s[k]) <= NonceOf(s[l]);
        }
      } else {
        assert i < k ==> NonceOf(s[i]) <= NonceOf(s[k]);
      }
    }
  }

  class ActQueue {
    const address: Address
    const ttl: nat
    var items: Items
    var index: seq<Timed>
    var pendingNonce: nat
    var pendingBalance: nat
    /** When each action expires. */
    ghost var deadlines: map<nat, nat>

    ghost predicate Indexed()
      reads this
    {
      Indexes(multiset(index), deadlines, items, address)
    }

    ghost predicate Valid()
      reads this
    {
      Indexed() && IsHeap(index, NonceOf)
    }

    constructor (address: Address, ttl: nat)
      ensures Valid() && this.address == address && this.ttl == ttl
      ensures items == map[] && index == [] && deadlines == map[] && pendingNonce == 1 && pendingBalance == 0
    {
      this.address, this.ttl := address, ttl;
      items, index, pendingNonce, pendingBalance := map[], [], 1, 0;
      deadlines := map[];
    }

    method Put(act: Action, now: nat) returns (ok: bool)
      requires Valid() && act.sender == address
      modifies this
      ensures Valid() && pendingNonce == old(pendingNonce) && pendingBalance == old(pendingBalance)
      ensures ok == (act.nonce !in old(items))
      ensures items == if ok then old(items)[act.nonce := act] else old(items)
      ensures deadlines == if ok then old(deadlines)[act.nonce := now + ttl] else old(deadlines)
      ensures index == if ok then Pushed(old(index), NonceOf, Timed(act.nonce, now + ttl)) else old(index)
    {
      if act.nonce in items {
        return false;
      }
      OneMore(multiset(index), deadlines, items, address, act, now + ttl);
      index := Push(index, NonceOf, Timed(act.nonce, now + ttl));
      items := items[act.nonce := act];
      deadlines := deadlines[act.nonce := now + ttl];
      return true;
    }

    /** Takes out the action of one entry; the rest of the index is then right for what is left. */
    method TakeItem(t: Timed, ghost bag: multiset<Timed>, ghost rest: multiset<Timed>, ghost from: Items,
                    removed: seq<Action>)
      returns (more: seq<Action>)
      requires Indexes(bag, deadlines, items, address) && rest + multiset{t} == bag
      requires Splits(from, items, removed)
      modifies this`items, this`deadlines
      ensures Indexes(rest, deadlines, items, address)
      ensures items == old(items) - {t.nonce} && deadlines == old(deadlines) - {t.nonce} && Splits(from, items, more)
    {
      hide Indexes, Splits;
      OneLess(bag, rest, deadlines, items, address, t);
      SplitsOneMore(from, items, removed, t.nonce);
      more := removed + [items[t.nonce]];
      items := items - {t.nonce};
      deadlines := deadlines - {t.nonce};
    }

    /** Takes out exactly the actions with a nonce below the threshold. */
    method FilterNonce(threshold: nat) returns (removed: seq<Action>)
      requires Valid()
      modifies this
      ensures Valid() && pendingNonce == old(pendingNonce) && pendingBalance == old(pendingBalance)
      ensures items == Above(old(items), threshold)
      ensures AgreeOn(items, deadlines, old(deadlines)) && Within(deadlines, old(deadlines))
      ensures Splits(old(items), items, removed)
    {
      hide IsHeap, Indexes;
      removed := [];
      while |index| > 0 && index[0].nonce < threshold
        invariant Valid() && pendingNonce == old(pendingNonce) && pendingBalance == old(pendingBalance)
        invariant Splits(old(items), items, removed)
        invariant forall n :: n in old(items) && n >= threshold ==> n in items
        invariant Within(deadlines, old(deadlines))
        decreases |index|
      {
        var rest, t := Pop(index, NonceOf);
        removed := TakeItem(t, multiset(index), multiset(rest), old(items), removed);
        assert |multiset(rest)| + 1 == |multiset(index)|;
        index := rest;
      }
      IndexHas(index, deadlines, items, address);
      forall n | n in items ensures n >= threshold {
        var k := PlaceOf(index, n);
        FrontIsLeast(index, NonceOf, k);
      }
    }

    /** Takes out the entry at a place of the index, and its action. */
    method RemoveAt(i: nat, ghost from: Items, removed: seq<Action>) returns (more: seq<Action>)
      requires Indexed() && i < |index| && Splits(from, items, removed)
      modifies this`items, this`index, this`deadlines
      ensures Indexed() && Splits(from, items, more) && Within(deadlines, old(deadlines))
      ensures index == old(index)[..i] + old(index)[i + 1..]
    {
      var t := index[i];
      var rest := index[..i] + index[i + 1..];
      assert index == index[..i] + [t] + index[i + 1..];
      more := TakeItem(t, multiset(index), multiset(rest), from, removed);
      index := rest;
    }

    /** Takes out expired actions, looking past the one after each it removes. */
    method CleanTimeout(now: nat) returns (removed: seq<Action>)
      requires Indexed()
      modifies this`items, this`index, this`deadlines
      ensures Indexed() && index == Sweep(old(index), now)
      ensures Splits(old(items), items, removed) && Within(deadlines, old(deadlines))
    {
      hide Indexed, Splits, Sweep;
      removed := [];
      assert Splits(old(items), items, removed) by { SplitsNone(items); }
      var i := 0;
      while i < |index|
        invariant SweepFrom(index, i, now) == SweepFrom(old(index), 0, now)
        invariant Indexed() && Splits(old(items), items, removed) && Within(deadlines, old(deadlines))
        decreases |index| - i
      {
        if now > index[i].deadline {
          removed := RemoveAt(i, old(items), removed);
        }
        i := i + 1;
      }
      SweepFromIs(old(index), 0, now);
      assert old(index)[..0] == [] && old(index)[0..] == old(index);
    }

    method EnoughBalance(act: Action, updateBalance: bool) returns (ok: bool)
      modifies this`pendingBalance
      ensures ok == (act.cost <= old(pendingBalance))
      ensures pendingBalance == old(pendingBalance) - if ok && updateBalance then act.cost else 0
    {
      if pendingBalance < act.cost {
        return false;
      }
      if updateBalance {
        pendingBalance := pendingBalance - act.cost;
      }
      return true;
    }

    /** Takes out the actions from a place in the index on. */
    method RemoveActs(idx: nat) returns (removed: seq<Action>)
      requires Indexed() && idx <= |index|
      modifies this`items, this`index, this`deadlines
      ensures Valid()
      ensures items == map n | n in old(items) && n !in NoncesOf(old(index)[idx..]) :: old(items)[n]
      ensures Splits(old(items), items, removed) && Within(deadlines, old(deadlines))
    {
      hide Indexes, IsHeap, Splits, NoncesOf;
      removed := [];
      assert Splits(old(items), items, removed) by { SplitsNone(items); }
      assert NoncesOf(index[idx..idx]) == {} by { NoNonces(index[idx..idx]); }
      ghost var bag := multiset(index);
      assert index == index[..idx] + index[idx..];
      for i := idx to |index|
        invariant index == old(index) && bag == multiset(index[..idx]) + multiset(index[i..])
        invariant Indexes(bag, deadlines, items, address)
        invariant items.Keys == old(items).Keys - NoncesOf(index[idx..i])
        invariant Splits(old(items), items, removed) && Within(deadlines, old(deadlines))
      {
        var t := index[i];
        TailStep(index, idx, i);
        ghost var rest := multiset(index[..idx]) + multiset(index[i + 1..]);
        removed := TakeItem(t, bag, rest, old(items), removed);
        bag := rest;
      }
      assert index[idx..|index|] == index[idx..];
      SubItems(old(items), items, removed);
      assert index[|index|..] == [] && bag == multiset(index[..idx]);
      index := Init(index[..idx], NonceOf);
    }

    /** Pays for the actions from a nonce on, one by one, as long as they are there and the balance lasts. */
    method PayRun(nonce: nat) returns (end: nat)
      modifies this`pendingBalance
      ensures end == EndOf(items, nonce, old(pendingBalance))
      ensures Payable(items, nonce, end, old(pendingBalance))
      ensures pendingBalance == old(pendingBalance) - Cost(items, nonce, end)
    {
      end := nonce;
      while end in items
        invariant nonce <= end && HasAll(items, nonce, end)
        invariant pendingBalance + Cost(items, nonce, end) == old(pendingBalance)
        invariant EndOf(items, end, pendingBalance) == EndOf(items, nonce, old(pendingBalance))
        decreases From(items, end)
      {
        var ok := EnoughBalance(items[end], true);
        if !ok {
          break;
        }
        assert HasAll(items, nonce, end + 1);
        assert end in From(items, end) && end !in From(items, end + 1);
        end := end + 1;
      }
    }

    /** Where a sorted index is to be cut: at the first action past the run that the balance cannot pay. */
    method FindCut(end: nat) returns (i: nat)
      requires Sorted(index, NonceOf) && NoncesOf(index) == items.Keys
      requires forall k :: 0 <= k < |index| ==> index[k].nonce in items
      requires end in items ==> items[end].cost > pendingBalance
      ensures i <= |index|
      ensures forall k :: 0 <= k < i && index[k].nonce >= end ==> items[index[k].nonce].cost <= pendingBalance
      ensures i < |index| ==> index[i].nonce >= end && items[index[i].nonce].cost > pendingBalance
    {
      hide Sorted, NoncesOf;
      i := 0;
      while i < |index| && index[i].nonce < end
        invariant 0 <= i <= |index|
        invariant forall k :: 0 <= k < i ==> index[k].nonce < end
      {
        i := i + 1;
      }
      if end in items {
        ghost var k := PlaceOf(index, end);
        SortedAt(index, i, k);
        return;
      }
      while i < |index|
        invariant 0 <= i <= |index|
        invariant i < |index| ==> index[i].nonce >= end
        invariant forall k :: 0 <= k < i && index[k].nonce >= end ==> items[index[k].nonce].cost <= pendingBalance
      {
        if pendingBalance < items[index[i].nonce].cost {
          return;
        }
        SortedAt(index, i, i + 1);
        i := i + 1;
      }
    }

    /**
    Sweeps out expired actions, moves the pending nonce to the end of the longest
    run that the balance pays for, and cuts off what cannot be paid after it.
    */
    method UpdateQueue(nonce: nat, now: nat) returns (removed: seq<Action>)
      requires Valid()
      modifies this
      ensures Valid()
      ensures var m := AfterExpiry(old(items), old(index), ttl, now);
              RefreshedTo(items, pendingNonce, pendingBalance, m, nonce, old(pendingBalance))
      ensures Splits(old(items), items, removed) && Within(deadlines, old(deadlines))
    {
      hide IsHeap, Indexes, Splits, NoncesOf, EndOf, Trim, Sweep;
      removed := [];
      assert Splits(items, items, removed) by { SplitsNone(items); }
      if ttl != 0 {
        removed := CleanTimeout(now);
      }
      IndexHas(index, deadlines, items, address);
      ghost var m := items;
      SweptItems(old(items), m, removed, old(index), ttl, now, index);
      var end := PayRun(nonce);
      pendingNonce := end;
      EndIsTooDear(m, nonce, old(pendingBalance));
      var cut := CutFrom(end);
      SplitsThen(old(items), m, items, removed, cut);
      removed := removed + cut;
    }

    /** Sorts the index and cuts off what cannot be paid past the end of the run. */
    method CutFrom(end: nat) returns (removed: seq<Action>)
      requires Indexed() && (end in items ==> items[end].cost > pendingBalance)
      modifies this`items, this`index, this`deadlines
      ensures Valid() && items == Trim(old(items), end, pendingBalance)
      ensures Splits(old(items), items, removed) && Within(deadlines, old(deadlines))
    {
      hide IsHeap, Indexes, Splits, NoncesOf, Trim, Sorted;
      index := Sort(index, NonceOf);
      IndexHas(index, deadlines, items, address);
      var i := FindCut(end);
      CutIsTrim(index, items, end, pendingBalance, i);
      removed := RemoveActs(i);
    }

    /** The actions with consecutive nonces after the confirmed one. */
    method PendingActs(confirmed: nat) returns (acts: seq<Action>)
      requires Valid()
      ensures acts == RunFrom(items, confirmed + 1)
    {
      if |items| == 0 {
        return [];
      }
      acts := [];
      var nonce: nat := confirmed + 1;
      while nonce in items
        invariant acts + RunFrom(items, nonce) == RunFrom(items, confirmed + 1)
        decreases From(items, nonce)
      {
        assert nonce in From(items, nonce) && nonce !in From(items, nonce + 1);
        acts := acts + [items[nonce]];
        nonce := nonce + 1;
      }
    }
  }

  lemma SortedAt(s: seq<Timed>, i: nat, j: nat)
    requires Sorted(s, NonceOf)
    ensures i <= j < |s| ==> s[i].nonce <= s[j].nonce
  {
    assert i < j < |s| ==> NonceOf(s[i]) <= NonceOf(s[j]);
  }

  lemma SweptItems(from: Items, m: Items, removed: seq<Action>, was: seq<Timed>, ttl: nat, now: nat, index: seq<Timed>)
    requires Splits(from, m, removed) && NoncesOf(index) == m.Keys
    requires if ttl == 0 then m == from else index == Sweep(was, now)
    ensures m == AfterExpiry(from, was, ttl, now)
  {
  }

  /** The action at the end of the longest run, if there is one, is too dear for what is left. */
  lemma EndIsTooDear(items: Items, start: nat, balance: nat)
    ensures var end := EndOf(items, start, balance);
            && Payable(items, start, end, balance)
            && (end in items ==> items[end].cost > balance - Cost(items, start, end))
  {
    var end := EndOf(items, start, balance);
    LongestRun(items, start, balance, end);
    LongestRun(items, start, balance, end + 1);
    if end in items {
      assert HasAll(items, start, end + 1);
      assert Cost(items, start, end + 1) == Cost(items, start, end) + items[end].cost;
    }
  }

  lemma NoNonces(s: seq<Timed>)
    requires s == []
    ensures NoncesOf(s) == {}
  {
  }

  lemma TailStep(s: seq<Timed>, idx: nat, i: nat)
    requires idx <= i < |s|
    ensures multiset(s[i..]) == multiset(s[i + 1..]) + multiset{s[i]}
    ensures NoncesOf(s[idx..i + 1]) == NoncesOf(s[idx..i]) + {s[i].nonce}
  {
    assert s[i..] == [s[i]] + s[i + 1..];
    assert s[idx..i + 1] == s[idx..i] + [s[i]];
    AppendNonce(s[idx..i], s[i]);
  }

  lemma SubItems(from: Items, to: Items, removed: seq<Action>)
    requires Splits(from, to, removed)
    ensures to == map n | n in from && n in to :: from[n]
  {
  }

  lemma AppendNonce(s: seq<Timed>, t: Timed)
    ensures NoncesOf(s + [t]) == NoncesOf(s) + {t.nonce}
  {
    assert forall x :: x in s + [t] <==> x in s || x == t;
    assert t in s + [t];
  }

  lemma SplitsNone(items: Items)
    ensures Splits(items, items, [])
  {
  }

  /** The sweep from a place on, step by step. */
  ghost function SweepFrom(s: seq<Timed>, i: nat, now: nat): seq<Timed>
    decreases |s| - i
  {
    if i >= |s| then s
    else SweepFrom(if Expired(s[i], now) then s[..i] + s[i + 1..] else s, i + 1, now)
  }

  lemma {:induction false} SweepFromIs(s: seq<Timed>, i: nat, now: nat)
    requires i <= |s|
    ensures SweepFrom(s, i, now) == s[..i] + Sweep(s[i..], now)
    decreases |s| - i
  {
    if i < |s| {
      SweepStep(s, i, now);
      if !Expired(s[i], now) {
        SweepFromIs(s, i + 1, now);
        assert s[..i + 1] == s[..i] + [s[i]];
      } else {
        var to := s[..i] + s[i + 1..];
        if i + 1 < |s| {
          SweepFromIs(to, i + 1, now);
          assert to[..i + 1] == s[..i] + [s[i + 1]] && to[i + 1..] == s[i + 2..];
        } else {
          assert to == s[..i];
        }
      }
    }
  }

  lemma SweepStep(s: seq<Timed>, j: nat, now: nat)
    requires j < |s|
    ensures Sweep(s[j..], now) ==
            if !Expired(s[j], now) then [s[j]] + Sweep(s[j + 1..], now)
            else if j + 1 == |s| then Sweep(s[j + 1..], now)
            else [s[j + 1]] + Sweep(s[j + 2..], now)
  {
    assert s[j..][0] == s[j] && s[j..][1..] == s[j + 1..];
    if j + 1 < |s| {
      assert s[j..][1] == s[j + 1] && s[j..][2..] == s[j + 2..];
    }
  }
}
