/**
The block store and its index of actions by address (blockchain/blockdao.go,
blockchain/indexbuilder.go), against a scan of the chain.

Keys and values are typed here instead of being strings of bytes; the writes of
an operation are collected in a batch, while reads see the store as it was.
*/
module BlockIndex {
  import Actions

  type Address = Actions.Address
  type ActHash = Actions.ActHash

  /** Whom an action goes to: nobody, an address, or something that is no address. */
  datatype Destination = Nowhere | To(address: Address) | Malformed

  datatype Act = Act(hash: ActHash, sender: Address, dst: Destination)

  datatype Header = Header(height: nat, rest: nat)
  datatype Block = Block(header: Header, acts: seq<Act>, footer: nat)
  datatype BlockHash = ZeroHash | HashOf(header: Header)

  datatype Side = Sender | Recipient

  datatype Store = Store(
    top: nat,
    total: nat,
    headers: map<BlockHash, Header>,
    bodies: map<BlockHash, seq<Act>>,
    footers: map<BlockHash, nat>,
    heights: map<BlockHash, nat>,
    hashes: map<nat, BlockHash>,
    counts: map<(Side, Address), nat>,
    entries: map<(Side, Address, nat), ActHash>)

  datatype Write =
    | PutTop(n: nat)
    | PutTotal(n: nat)
    | PutParts(hash: BlockHash, block: Block)
    | DeleteParts(hash: BlockHash)
    | PutHeight(hash: BlockHash, height: nat)
    | DeleteHeight(hash: BlockHash)
    | PutHash(height: nat, hash: BlockHash)
    | DeleteHash(height: nat)
    | PutCount(side: Side, address: Address, n: nat)
    | PutEntry(side: Side, address: Address, i: nat, act: ActHash)
    | DeleteEntry(side: Side, address: Address, i: nat)

  function Apply(s: Store, w: Write): Store {
    match w
    case PutTop(n) => s.(top := n)
    case PutTotal(n) => s.(total := n)
    case PutParts(h, b) => s.(headers := s.headers[h := b.header], bodies := s.bodies[h := b.acts],
                              footers := s.footers[h := b.footer])
    case DeleteParts(h) => s.(headers := s.headers - {h}, bodies := s.bodies - {h}, footers := s.footers - {h})
    case PutHeight(h, n) => s.(heights := s.heights[h := n])
    case DeleteHeight(h) => s.(heights := s.heights - {h})
    case PutHash(n, h) => s.(hashes := s.hashes[n := h])
    case DeleteHash(n) => s.(hashes := s.hashes - {n})
    case PutCount(d, a, n) => s.(counts := s.counts[(d, a) := n])
    case PutEntry(d, a, i, x) => s.(entries := s.entries[(d, a, i) := x])
    case DeleteEntry(d, a, i) => s.(entries := s.entries - {(d, a, i)})
  }

  function ApplyAll(s: Store, batch: seq<Write>): Store {
    if batch == [] then s else Apply(ApplyAll(s, batch[..|batch| - 1]), batch[|batch| - 1])
  }

  lemma ApplyMore(s: Store, batch: seq<Write>, w: Write)
    ensures ApplyAll(s, batch + [w]) == Apply(ApplyAll(s, batch), w)
  {
    assert (batch + [w])[..|batch|] == batch;
  }

  // ---- the scan

  predicate Concerns(x: Act, side: Side, a: Address) {
    match side
    case Sender => x.sender == a
    case Recipient => x.dst == To(a)
  }

  /** The hashes of the actions in a list that an address sent or received. */
  ghost function ScanActs(acts: seq<Act>, side: Side, a: Address): seq<ActHash> {
    if acts == [] then []
    else ScanActs(acts[..|acts| - 1], side, a) + if Concerns(acts[|acts| - 1], side, a) then [acts[|acts| - 1].hash]
        else []
  }

  ghost function Scan(chain: seq<Block>, side: Side, a: Address): seq<ActHash> {
    if chain == [] then [] else Scan(chain[..|chain| - 1], side, a) + ScanActs(chain[|chain| - 1].acts, side, a)
  }

  /** An action of the list has that hash and that sender, or that recipient. */
  ghost predicate HasAct(acts: seq<Act>, side: Side, a: Address, x: ActHash) {
    exists t :: t in acts && t.hash == x && if side == Sender then t.sender == a else t.dst == To(a)
  }

  lemma {:induction false} ScanActsHas(acts: seq<Act>, side: Side, a: Address, x: ActHash)
    ensures x in ScanActs(acts, side, a) <==> HasAct(acts, side, a, x)
  {
    if acts != [] {
      var most, last := acts[..|acts| - 1], acts[|acts| - 1];
      assert acts == most + [last];
      ScanActsHas(most, side, a, x);
      if HasAct(most, side, a, x) {
        var t :| t in most && t.hash == x && if side == Sender then t.sender == a else t.dst == To(a);
        assert t in acts;
      }
      if Concerns(last, side, a) && last.hash == x { assert last in acts; }
    }
  }

  /** A scan finds exactly the actions of the chain with that sender, or that recipient. */
  lemma {:induction false} ScanHas(chain: seq<Block>, side: Side, a: Address, x: ActHash)
    ensures x in Scan(chain, side, a) <==> exists b :: b in chain && HasAct(b.acts, side, a, x)
  {
    if chain != [] {
      var most, last := chain[..|chain| - 1], chain[|chain| - 1];
      assert chain == most + [last];
      ScanHas(most, side, a, x);
      ScanActsHas(last.acts, side, a, x);
      assert last in chain;
    }
  }

  ghost function Total(chain: seq<Block>): nat {
    if chain == [] then 0 else Total(chain[..|chain| - 1]) + |chain[|chain| - 1].acts|
  }

  lemma ScanPush(chain: seq<Block>, b: Block, side: Side, a: Address)
    ensures Scan(chain + [b], side, a) == Scan(chain, side, a) + ScanActs(b.acts, side, a)
    ensures Total(chain + [b]) == Total(chain) + |b.acts|
  {
    assert (chain + [b])[..|chain|] == chain;
  }

  lemma ScanNext(acts: seq<Act>, i: nat, side: Side, a: Address)
    requires i < |acts|
    ensures ScanActs(acts[..i + 1], side, a) == ScanActs(acts[..i], side, a)
        + if Concerns(acts[i], side, a) then [acts[i].hash] else []
  {
    assert acts[..i + 1][..i] == acts[..i];
  }

  function CountOf(s: Store, side: Side, a: Address): nat {
    if (side, a) in s.counts then s.counts[(side, a)] else 0
  }

  /** What queries by address see is the given list; entries above the count do not show. */
  ghost predicate Shows(s: Store, side: Side, a: Address, list: seq<ActHash>) {
    && CountOf(s, side, a) == |list|
    && forall i :: 0 <= i < |list| ==> (side, a, i) in s.entries && s.entries[(side, a, i)] == list[i]
  }

  /** What queries by height and hash see is the chain. */
  ghost predicate HoldsBlocks(s: Store, chain: seq<Block>) {
    && s.top == |chain|
    && (forall i :: 0 <= i < |chain| ==> chain[i].header.height == i + 1)
    && (forall n :: RightHash(s, chain, n))
    && (forall h :: RightBlock(s, chain, h))
  }

  ghost predicate RightHash(s: Store, chain: seq<Block>, n: nat) {
    if 1 <= n <= |chain| then n in s.hashes && s.hashes[n] == HashOf(chain[n - 1].header) else n !in s.hashes
  }

  ghost predicate RightBlock(s: Store, chain: seq<Block>, h: BlockHash) {
    if InChain(h, chain) then
      var b := chain[h.header.height - 1];
      && h in s.headers && s.headers[h] == b.header
      && h in s.bodies && s.bodies[h] == b.acts
      && h in s.footers && s.footers[h] == b.footer
      && h in s.heights && s.heights[h] == b.header.height
    else h !in s.headers && h !in s.bodies && h !in s.footers && h !in s.heights
  }

  ghost predicate InChain(h: BlockHash, chain: seq<Block>) {
    h.HashOf? && 1 <= h.header.height <= |chain| && chain[h.header.height - 1].header == h.header
  }

  /** The whole index agrees with a scan of the chain. */
  ghost predicate Agrees(s: Store, chain: seq<Block>) {
    && HoldsBlocks(s, chain)
    && s.total == Total(chain)
    && forall side, a :: Shows(s, side, a, Scan(chain, side, a))
  }

  predicate WellAddressed(acts: seq<Act>) {
    forall x :: x in acts ==> !x.dst.Malformed?
  }

  // ---- indexing a block

  /** One more action at the end of an address's list. */
  ghost function PutOne(v: Store, side: Side, a: Address, x: ActHash): Store {
    var n := CountOf(v, side, a);
    v.(entries := v.entries[(side, a, n) := x], counts := v.counts[(side, a) := n + 1])
  }

  ghost function PutAct(v: Store, x: Act): Store {
    var sent := PutOne(v, Sender, x.sender, x.hash);
    if x.dst.To? then PutOne(sent, Recipient, x.dst.address, x.hash) else sent
  }

  ghost function PutActs(v: Store, acts: seq<Act>): Store {
    if acts == [] then v else PutAct(PutActs(v, acts[..|acts| - 1]), acts[|acts| - 1])
  }

  lemma PutOneShows(v: Store, side: Side, a: Address, x: ActHash, side': Side, a': Address, list: seq<ActHash>)
    requires Shows(v, side', a', list)
    ensures Shows(PutOne(v, side, a, x), side', a', list + if side == side' && a == a' then [x] else [])
  {
  }

  lemma PutActShows(v: Store, x: Act, side: Side, a: Address, list: seq<ActHash>)
    requires Shows(v, side, a, list)
    ensures Shows(PutAct(v, x), side, a, list + if Concerns(x, side, a) then [x.hash] else [])
  {
    hide Shows, PutOne;
    var sent := PutOne(v, Sender, x.sender, x.hash);
    PutOneShows(v, Sender, x.sender, x.hash, side, a, list);
    if x.dst.To? {
      var sentList := list + if side == Sender && x.sender == a then [x.hash] else [];
      PutOneShows(sent, Recipient, x.dst.address, x.hash, side, a, sentList);
      assert list + [] == list && sentList + [] == sentList;
    }
  }

  /** Indexing a block appends to every address's list what a scan of the block finds for it. */
  lemma {:induction false} PutActsShows(v: Store, acts: seq<Act>, side: Side, a: Address, list: seq<ActHash>)
    requires Shows(v, side, a, list)
    ensures Shows(PutActs(v, acts), side, a, list + ScanActs(acts, side, a))
  {
    hide Shows, PutAct;
    if acts == [] {
      assert list + [] == list;
    } else {
      var most, x := acts[..|acts| - 1], acts[|acts| - 1];
      PutActsShows(v, most, side, a, list);
      PutActShows(PutActs(v, most), x, side, a, list + ScanActs(most, side, a));
      var more := if Concerns(x, side, a) then [x.hash] else [];
      assert (list + ScanActs(most, side, a)) + more == list + (ScanActs(most, side, a) + more);
    }
  }

  lemma {:induction false} PutActsElsewhere(v: Store, acts: seq<Act>)
    ensures PutActs(v, acts) == v.(counts := PutActs(v, acts).counts, entries := PutActs(v, acts).entries)
  {
    if acts != [] { PutActsElsewhere(v, acts[..|acts| - 1]); }
  }

  function Plus(delta: map<Address, nat>, a: Address): nat {
    if a in delta then delta[a] else 0
  }

  /** The stored counts, plus what the block had so far, are the counts the batch comes to. */
  ghost predicate Tracks(delta: map<Address, nat>, s: Store, v: Store, side: Side) {
    forall a :: CountOf(s, side, a) + Plus(delta, a) == CountOf(v, side, a)
  }

  lemma TracksMore(delta: map<Address, nat>, s: Store, v: Store, side: Side, a: Address, x: ActHash)
    requires Tracks(delta, s, v, side)
    ensures CountOf(s, side, a) + Plus(delta, a) == CountOf(v, side, a)
    ensures Tracks(delta[a := Plus(delta, a) + 1], s, PutOne(v, side, a, x), side)
  {
  }

  method Bump(s: Store, delta: map<Address, nat>, side: Side, a: Address, x: ActHash, batch: seq<Write>)
    returns (delta': map<Address, nat>, batch': seq<Write>)
    requires Tracks(delta, s, ApplyAll(s, batch), side)
    ensures Tracks(delta', s, ApplyAll(s, batch'), side)
    ensures ApplyAll(s, batch') == PutOne(ApplyAll(s, batch), side, a, x)
  {
    hide ApplyAll, Tracks, Apply, PutOne;
    TracksMore(delta, s, ApplyAll(s, batch), side, a, x);
    var count := CountOf(s, side, a);
    if a in delta {
      count := count + delta[a];
      delta' := delta[a := delta[a] + 1];
    } else {
      delta' := delta[a := 1];
    }
    batch' := batch + [PutEntry(side, a, count, x)];
    ApplyMore(s, batch, PutEntry(side, a, count, x));
    ApplyMore(s, batch', PutCount(side, a, count + 1));
    batch' := batch' + [PutCount(side, a, count + 1)];
    EntryThenCount(ApplyAll(s, batch), side, a, x);
  }

  lemma EntryThenCount(v: Store, side: Side, a: Address, x: ActHash)
    ensures var n := CountOf(v, side, a);
            Apply(Apply(v, PutEntry(side, a, n, x)), PutCount(side, a, n + 1)) == PutOne(v, side, a, x)
  {
  }

  lemma OtherSide(delta: map<Address, nat>, s: Store, v: Store, side: Side, a: Address, x: ActHash, other: Side)
    requires Tracks(delta, s, v, other) && side != other
    ensures Tracks(delta, s, PutOne(v, side, a, x), other)
  {
  }

  /** Queues the index entries of a block's actions; a destination that is no address stops it. */
  method PutActions(s: Store, acts: seq<Act>, batch0: seq<Write>) returns (ok: bool, batch: seq<Write>)
    requires Tracks(map[], s, ApplyAll(s, batch0), Sender) && Tracks(map[], s, ApplyAll(s, batch0), Recipient)
    ensures ok <==> WellAddressed(acts)
    ensures ok ==> ApplyAll(s, batch) == PutActs(ApplyAll(s, batch0), acts)
  {
    hide ApplyAll, Tracks, PutOne;
    batch := batch0;
    var senderDelta, recipientDelta: map<Address, nat> := map[], map[];
    ghost var v0 := ApplyAll(s, batch0);
    for i := 0 to |acts|
      invariant Tracks(senderDelta, s, ApplyAll(s, batch), Sender)
      invariant Tracks(recipientDelta, s, ApplyAll(s, batch), Recipient)
      invariant ApplyAll(s, batch) == PutActs(v0, acts[..i])
      invariant forall x :: x in acts[..i] ==> !x.dst.Malformed?
    {
      var x := acts[i];
      assert acts[..i + 1] == acts[..i] + [x] && acts[..i + 1][..i] == acts[..i];
      OtherSide(recipientDelta, s, ApplyAll(s, batch), Sender, x.sender, x.hash, Recipient);
      senderDelta, batch := Bump(s, senderDelta, Sender, x.sender, x.hash, batch);
      match x.dst {
        case Nowhere =>
        case Malformed =>
          assert x in acts;
          return false, batch;
        case To(a) =>
          OtherSide(senderDelta, s, ApplyAll(s, batch), Recipient, a, x.hash, Sender);
          recipientDelta, batch := Bump(s, recipientDelta, Recipient, a, x.hash, batch);
      }
    }
    assert acts[..|acts|] == acts;
    ok := true;
  }

  // ---- taking the index of a block back

  /** How often each address occurs on one side of a block. */
  ghost predicate Counted(m: map<Address, nat>, acts: seq<Act>, side: Side) {
    forall a :: Plus(m, a) == |ScanActs(acts, side, a)|
  }

  lemma OneCounted(m: map<Address, nat>, acts: seq<Act>, i: nat, side: Side)
    requires i < |acts| && Counted(m, acts[..i], side)
    ensures side == Sender ==> Counted(m[acts[i].sender := Plus(m, acts[i].sender) + 1], acts[..i + 1], side)
    ensures side == Recipient && acts[i].dst.To? ==>
              Counted(m[acts[i].dst.address := Plus(m, acts[i].dst.address) + 1], acts[..i + 1], side)
    ensures side == Recipient && !acts[i].dst.To? ==> Counted(m, acts[..i + 1], side)
  {
    forall a ensures |ScanActs(acts[..i + 1], side, a)| == |ScanActs(acts[..i], side, a)|
        + if Concerns(acts[i], side, a) then 1 else 0 {
      ScanNext(acts, i, side, a);
    }
  }

  method CountSides(acts: seq<Act>) returns (ok: bool, senders: map<Address, nat>, recipients: map<Address, nat>)
    ensures ok <==> WellAddressed(acts)
    ensures ok ==> Counted(senders, acts, Sender) && Counted(recipients, acts, Recipient)
  {
    hide Counted;
    senders, recipients := map[], map[];
    assert acts[..0] == [];
    assert Counted(map[], acts[..0], Sender) && Counted(map[], acts[..0], Recipient) by { NothingCounted(); }
    for i := 0 to |acts|
      invariant Counted(senders, acts[..i], Sender) && Counted(recipients, acts[..i], Recipient)
      invariant forall x :: x in acts[..i] ==> !x.dst.Malformed?
    {
      var x := acts[i];
      assert acts[..i + 1] == acts[..i] + [x];
      OneCounted(senders, acts, i, Sender);
      OneCounted(recipients, acts, i, Recipient);
      senders := senders[x.sender := Plus(senders, x.sender) + 1];
      match x.dst {
        case Nowhere =>
        case Malformed =>
          assert x in acts;
          return false, senders, recipients;
        case To(a) =>
          recipients := recipients[a := Plus(recipients, a) + 1];
      }
    }
    assert acts[..|acts|] == acts;
    ok := true;
  }

  lemma NothingCounted()
    ensures Counted(map[], [], Sender) && Counted(map[], [], Recipient)
  {
  }

  /** What is left of an address's count once one side is lowered by what the block had. */
  ghost function Less(s: Store, v0: Store, side: Side, m: map<Address, nat>, todo: set<Address>, d: Side,
                      a: Address): int {
    if d == side && a in m && a !in todo then CountOf(s, side, a) - m[a] else CountOf(v0, d, a)
  }

  /** The counts of one side are lowered by what the block had; nothing else changes. */
  ghost predicate Lowered(s: Store, v0: Store, v: Store, side: Side, m: map<Address, nat>, todo: set<Address>) {
    && v == v0.(counts := v.counts)
    && (forall d, a :: CountOf(v, d, a) == Less(s, v0, side, m, todo, d, a))
  }

  lemma OneLowered(s: Store, v0: Store, v: Store, side: Side, m: map<Address, nat>, todo: set<Address>, a: Address)
    requires Lowered(s, v0, v, side, m, todo) && a in todo && a in m && m[a] <= CountOf(s, side, a)
    ensures Lowered(s, v0, Apply(v, PutCount(side, a, CountOf(s, side, a) - m[a])), side, m, todo - {a})
  {
    var w := Apply(v, PutCount(side, a, CountOf(s, side, a) - m[a]));
    forall d, b ensures CountOf(w, d, b) == Less(s, v0, side, m, todo - {a}, d, b) {
      assert CountOf(v, d, b) == Less(s, v0, side, m, todo, d, b);
    }
  }

  method LowerCounts(s: Store, side: Side, m: map<Address, nat>, batch0: seq<Write>)
    returns (base: map<Address, nat>, batch: seq<Write>)
    requires forall a :: a in m ==> m[a] <= CountOf(s, side, a)
    ensures base.Keys == m.Keys && forall a :: a in m ==> base[a] == CountOf(s, side, a) - m[a]
    ensures Lowered(s, ApplyAll(s, batch0), ApplyAll(s, batch), side, m, {})
  {
    hide ApplyAll, Lowered, CountOf;
    base, batch := m, batch0;
    ghost var v0 := ApplyAll(s, batch0);
    var todo := m.Keys;
    assert Lowered(s, v0, v0, side, m, todo) by { NoneLowered(s, v0, side, m); }
    while todo != {}
      invariant todo <= m.Keys == base.Keys
      invariant forall a :: a in m ==> base[a] == if a in todo then m[a] else CountOf(s, side, a) - m[a]
      invariant Lowered(s, v0, ApplyAll(s, batch), side, m, todo)
      decreases todo
    {
      var a :| a in todo;
      var n := CountOf(s, side, a) - m[a];
      OneLowered(s, v0, ApplyAll(s, batch), side, m, todo, a);
      ApplyMore(s, batch, PutCount(side, a, n));
      base := base[a := n];
      batch := batch + [PutCount(side, a, n)];
      todo := todo - {a};
    }
  }

  lemma NoneLowered(s: Store, v: Store, side: Side, m: map<Address, nat>)
    ensures Lowered(s, v, v, side, m, m.Keys)
  {
  }

  // Deleting starts at the lowered count, but the offset of each further entry is added to
  // the place of the one before it: places 0, 1, 3, 6, ... above the count.

  function Triangle(k: nat): nat {
    if k == 0 then 0 else Triangle(k - 1) + k
  }

  /** Whether one of the first so many places deleted, from a count up, is the given one. */
  ghost predicate Hit(base: nat, times: nat, i: nat) {
    exists k :: 0 <= k < times && i == base + Triangle(k)
  }

  function Pronic(k: nat): nat {
    k * (k + 1)
  }

  lemma {:induction false} TriangleIs(k: nat)
    ensures 2 * Triangle(k) == Pronic(k)
  {
    if k > 0 { TriangleIs(k - 1); }
  }

  /** The places deleted lie 0, 1, 3, 6, ... above the count. */
  lemma HitIff(base: nat, times: nat, i: nat)
    ensures Hit(base, times, i) <==> exists k: nat :: k < times && 2 * (i - base) == Pronic(k)
  {
    forall k: nat ensures 2 * Triangle(k) == Pronic(k) { TriangleIs(k); }
    if Hit(base, times, i) {
      var k :| 0 <= k < times && i == base + Triangle(k);
      assert 2 * (i - base) == Pronic(k);
    }
    if exists k: nat :: k < times && 2 * (i - base) == Pronic(k) {
      var k: nat :| k < times && 2 * (i - base) == Pronic(k);
      assert i == base + Triangle(k);
    }
  }

  lemma HitOnce(base: nat, times: nat, i: nat)
    ensures Hit(base, times + 1, i) <==> Hit(base, times, i) || i == base + Triangle(times)
  {
    if i == base + Triangle(times) { assert 0 <= times < times + 1 && i == base + Triangle(times); }
  }

  /** Exactly the places hit are gone. */
  ghost predicate Dropped(v0: Store, v: Store, acts: seq<Act>, side: Side, a: Address, i: nat) {
    var kept := (side, a, i) in v0.entries && !Hit(CountOf(v0, side, a), |ScanActs(acts, side, a)|, i);
    && ((side, a, i) in v.entries <==> kept)
    && (kept ==> v.entries[(side, a, i)] == v0.entries[(side, a, i)])
  }

  ghost predicate SideDropped(v0: Store, v: Store, acts: seq<Act>, side: Side) {
    v == v0.(entries := v.entries) && forall a, i :: Dropped(v0, v, acts, side, a, i)
  }

  /** Where the last entry of an address was deleted, and how many were. */
  ghost predicate Cursor(v0: Store, at: map<Address, nat>, delta: map<Address, nat>, acts: seq<Act>, side: Side,
                         a: Address) {
    var times := |ScanActs(acts, side, a)|;
    && Plus(delta, a) == times && (a in delta ==> times > 0)
    && (a in at ==> at[a] == CountOf(v0, side, a) + Triangle(if times == 0 then 0 else times - 1))
  }

  ghost predicate Cursors(v0: Store, at: map<Address, nat>, delta: map<Address, nat>, acts: seq<Act>, side: Side) {
    forall a :: Cursor(v0, at, delta, acts, side, a)
  }

  lemma OneDropped(v0: Store, v: Store, acts: seq<Act>, n: nat, side: Side, a: Address, place: nat)
    requires n < |acts| && Concerns(acts[n], side, a) && SideDropped(v0, v, acts[..n], side)
    requires place == CountOf(v0, side, a) + Triangle(|ScanActs(acts[..n], side, a)|)
    ensures SideDropped(v0, Apply(v, DeleteEntry(side, a, place)), acts[..n + 1], side)
  {
    hide CountOf, ScanActs, Hit, Triangle;
    var w := Apply(v, DeleteEntry(side, a, place));
    var more := acts[..n + 1];
    forall b, i ensures Dropped(v0, w, more, side, b, i) {
      assert Dropped(v0, v, acts[..n], side, b, i);
      ScanNext(acts, n, side, b);
      HitOnce(CountOf(v0, side, b), |ScanActs(acts[..n], side, b)|, i);
    }
  }

  lemma OtherDropped(v0: Store, v: Store, acts: seq<Act>, side: Side, a: Address, place: nat, other: Side)
    requires side != other && SideDropped(v0, v, acts, other)
    ensures SideDropped(v0, Apply(v, DeleteEntry(side, a, place)), acts, other)
  {
    hide CountOf, ScanActs, Hit;
    forall b, i ensures Dropped(v0, Apply(v, DeleteEntry(side, a, place)), acts, other, b, i) {
      assert Dropped(v0, v, acts, other, b, i);
    }
  }

  /** An action without a recipient hits nothing on that side. */
  lemma NoneDropped(v0: Store, v: Store, acts: seq<Act>, n: nat, at: map<Address, nat>, delta: map<Address, nat>)
    requires n < |acts| && !acts[n].dst.To?
    requires SideDropped(v0, v, acts[..n], Recipient) && Cursors(v0, at, delta, acts[..n], Recipient)
    ensures SideDropped(v0, v, acts[..n + 1], Recipient) && Cursors(v0, at, delta, acts[..n + 1], Recipient)
  {
    hide CountOf, ScanActs, Hit, Triangle;
    forall b ensures ScanActs(acts[..n + 1], Recipient, b) == ScanActs(acts[..n], Recipient, b) {
      ScanNext(acts, n, Recipient, b);
    }
    var more := acts[..n + 1];
    forall b, i ensures Dropped(v0, v, more, Recipient, b, i) { assert Dropped(v0, v, acts[..n], Recipient, b, i); }
    forall b ensures Cursor(v0, at, delta, more, Recipient, b) {
      assert Cursor(v0, at, delta, acts[..n], Recipient, b);
    }
  }

  lemma CursorMoves(v0: Store, at: map<Address, nat>, delta: map<Address, nat>, acts: seq<Act>, n: nat, side: Side,
                    a: Address, at': map<Address, nat>, delta': map<Address, nat>)
    requires n < |acts| && Concerns(acts[n], side, a) && a in at && Cursors(v0, at, delta, acts[..n], side)
    requires at' == at[a := at[a] + Plus(delta, a)] && delta' == delta[a := Plus(delta, a) + 1]
    ensures at'[a] == CountOf(v0, side, a) + Triangle(|ScanActs(acts[..n], side, a)|)
    ensures Cursors(v0, at', delta', acts[..n + 1], side)
  {
    hide CountOf, ScanActs;
    var more := acts[..n + 1];
    forall b ensures Cursor(v0, at', delta', more, side, b) {
      assert Cursor(v0, at, delta, acts[..n], side, b);
      ScanNext(acts, n, side, b);
    }
    assert Cursor(v0, at, delta, acts[..n], side, a);
  }

  method DropEntry(s: Store, side: Side, a: Address, at: map<Address, nat>, delta: map<Address, nat>, batch: seq<Write>,
                   ghost v0: Store, ghost acts: seq<Act>, ghost n: nat)
    returns (at': map<Address, nat>, delta': map<Address, nat>, batch': seq<Write>)
    requires n < |acts| && Concerns(acts[n], side, a) && a in at
    requires Cursors(v0, at, delta, acts[..n], side) && SideDropped(v0, ApplyAll(s, batch), acts[..n], side)
    ensures at'.Keys == at.Keys && Cursors(v0, at', delta', acts[..n + 1], side)
    ensures SideDropped(v0, ApplyAll(s, batch'), acts[..n + 1], side)
    ensures forall xs, other :: other != side && SideDropped(v0, ApplyAll(s, batch), xs, other) ==>
                                  SideDropped(v0, ApplyAll(s, batch'), xs, other)
  {
    hide ApplyAll, Cursors, SideDropped, CountOf, Triangle, ScanActs;
    at' := at;
    if a in delta {
      at' := at[a := at[a] + delta[a]];
      delta' := delta[a := delta[a] + 1];
    } else {
      delta' := delta[a := 1];
    }
    assert at' == at[a := at[a] + Plus(delta, a)];
    CursorMoves(v0, at, delta, acts, n, side, a, at', delta');
    var v := ApplyAll(s, batch);
    OneDropped(v0, v, acts, n, side, a, at'[a]);
    ApplyMore(s, batch, DeleteEntry(side, a, at'[a]));
    batch' := batch + [DeleteEntry(side, a, at'[a])];
    forall xs, other | other != side && SideDropped(v0, v, xs, other)
        ensures SideDropped(v0, ApplyAll(s, batch'), xs, other) {
      OtherDropped(v0, v, xs, side, a, at'[a], other);
    }
  }

  method DropEntries(s: Store, acts: seq<Act>, senders: map<Address, nat>, recipients: map<Address, nat>,
                     batch0: seq<Write>)
    returns (batch: seq<Write>)
    requires WellAddressed(acts)
    requires forall x :: x in acts ==> x.sender in senders && (x.dst.To? ==> x.dst.address in recipients)
    requires Cursors(ApplyAll(s, batch0), senders, map[], [], Sender)
        && Cursors(ApplyAll(s, batch0), recipients, map[], [], Recipient)
    ensures SideDropped(ApplyAll(s, batch0), ApplyAll(s, batch), acts, Sender)
    ensures SideDropped(ApplyAll(s, batch0), ApplyAll(s, batch), acts, Recipient)
  {
    hide ApplyAll, Cursors, SideDropped;
    batch := batch0;
    ghost var v0 := ApplyAll(s, batch0);
    NothingDropped(v0);
    var sAt, rAt := senders, recipients;
    var senderDelta, recipientDelta: map<Address, nat> := map[], map[];
    assert acts[..0] == [];
    for i := 0 to |acts|
      invariant SideDropped(v0, ApplyAll(s, batch), acts[..i], Sender)
          && SideDropped(v0, ApplyAll(s, batch), acts[..i], Recipient)
      invariant sAt.Keys == senders.Keys && rAt.Keys == recipients.Keys
      invariant Cursors(v0, sAt, senderDelta, acts[..i], Sender)
          && Cursors(v0, rAt, recipientDelta, acts[..i], Recipient)
    {
      var x := acts[i];
      assert x in acts;
      sAt, senderDelta, batch := DropEntry(s, Sender, x.sender, sAt, senderDelta, batch, v0, acts, i);
      if x.dst.To? {
        rAt, recipientDelta, batch := DropEntry(s, Recipient, x.dst.address, rAt, recipientDelta, batch, v0, acts, i);
      } else {
        NoneDropped(v0, ApplyAll(s, batch), acts, i, rAt, recipientDelta);
      }
    }
    assert acts[..|acts|] == acts;
  }

  lemma NothingDropped(v: Store)
    ensures SideDropped(v, v, [], Sender) && SideDropped(v, v, [], Recipient)
  {
  }

  /** The index as it was before the block's actions were put in, as far as queries can see. */
  ghost predicate TakenBack(s: Store, v0: Store, v: Store, acts: seq<Act>) {
    && v == v0.(counts := v.counts, entries := v.entries)
    && (forall d, a :: CountOf(v, d, a) == CountOf(s, d, a) - |ScanActs(acts, d, a)|)
    && (forall d, a, i :: Emptied(v0, v, acts, d, a, i))
  }

  /** Exactly the places hit, from the lowered count up, are gone. */
  ghost predicate Emptied(v0: Store, v: Store, acts: seq<Act>, side: Side, a: Address, i: nat) {
    var kept := (side, a, i) in v0.entries && !Hit(CountOf(v, side, a), |ScanActs(acts, side, a)|, i);
    && ((side, a, i) in v.entries <==> kept)
    && (kept ==> v.entries[(side, a, i)] == v0.entries[(side, a, i)])
  }

  method DeleteActions(s: Store, acts: seq<Act>, batch0: seq<Write>) returns (ok: bool, batch: seq<Write>)
    requires forall d, a :: CountOf(ApplyAll(s, batch0), d, a) == CountOf(s, d, a) >= |ScanActs(acts, d, a)|
    ensures ok <==> WellAddressed(acts)
    ensures ok ==> TakenBack(s, ApplyAll(s, batch0), ApplyAll(s, batch), acts)
  {
    hide ApplyAll;
    var senders, recipients;
    ok, senders, recipients := CountSides(acts);
    if !ok {
      return false, batch0;
    }
    forall a ensures Plus(senders, a) <= CountOf(s, Sender, a) && Plus(recipients, a) <= CountOf(s, Recipient, a) {
      assert Plus(senders, a) == |ScanActs(acts, Sender, a)|;
    }
    hide Counted, Lowered, SideDropped, Cursors, CountOf, ScanActs;
    var sBase, batch1 := LowerCounts(s, Sender, senders, batch0);
    var rBase, batch2 := LowerCounts(s, Recipient, recipients, batch1);
    BothLowered(s, ApplyAll(s, batch0), ApplyAll(s, batch1), ApplyAll(s, batch2), senders, recipients, sBase, rBase);
    AllListed(acts, senders, recipients);
    batch := DropEntries(s, acts, sBase, rBase, batch2);
    BackTaken(s, ApplyAll(s, batch0), ApplyAll(s, batch1), ApplyAll(s, batch2), ApplyAll(s, batch), acts, senders,
              recipients);
  }

  lemma BothLowered(s: Store, v0: Store, v1: Store, v2: Store, senders: map<Address, nat>,
                    recipients: map<Address, nat>, sBase: map<Address, nat>, rBase: map<Address, nat>)
    requires Lowered(s, v0, v1, Sender, senders, {}) && Lowered(s, v1, v2, Recipient, recipients, {})
    requires sBase.Keys == senders.Keys && forall a :: a in senders ==> sBase[a] == CountOf(s, Sender, a) - senders[a]
    requires rBase.Keys == recipients.Keys && forall a :: a in recipients ==>
        rBase[a] == CountOf(s, Recipient, a) - recipients[a]
    ensures Cursors(v2, sBase, map[], [], Sender) && Cursors(v2, rBase, map[], [], Recipient)
  {
    hide CountOf;
    forall a ensures Cursor(v2, sBase, map[], [], Sender, a) {
      assert CountOf(v2, Sender, a) == Less(s, v1, Recipient, recipients, {}, Sender, a);
      assert CountOf(v1, Sender, a) == Less(s, v0, Sender, senders, {}, Sender, a);
    }
    forall a ensures Cursor(v2, rBase, map[], [], Recipient, a) {
      assert CountOf(v2, Recipient, a) == Less(s, v1, Recipient, recipients, {}, Recipient, a);
    }
  }

  lemma AllListed(acts: seq<Act>, senders: map<Address, nat>, recipients: map<Address, nat>)
    requires Counted(senders, acts, Sender) && Counted(recipients, acts, Recipient)
    ensures forall x :: x in acts ==> x.sender in senders && (x.dst.To? ==> x.dst.address in recipients)
  {
    forall x | x in acts ensures x.sender in senders && (x.dst.To? ==> x.dst.address in recipients) {
      Occurs(acts, x, Sender, x.sender);
      assert Plus(senders, x.sender) > 0;
      if x.dst.To? {
        Occurs(acts, x, Recipient, x.dst.address);
        assert Plus(recipients, x.dst.address) > 0;
      }
    }
  }

  lemma {:induction false} Occurs(acts: seq<Act>, x: Act, side: Side, a: Address)
    requires x in acts && Concerns(x, side, a)
    ensures |ScanActs(acts, side, a)| > 0
  {
    var most, last := acts[..|acts| - 1], acts[|acts| - 1];
    if x != last {
      assert acts == most + [last];
      assert x in most;
      Occurs(most, x, side, a);
    }
  }

  lemma BackTaken(s: Store, v0: Store, v1: Store, v2: Store, v: Store, acts: seq<Act>,
                  senders: map<Address, nat>, recipients: map<Address, nat>)
    requires forall d, a :: CountOf(v0, d, a) == CountOf(s, d, a)
    requires Counted(senders, acts, Sender) && Counted(recipients, acts, Recipient)
    requires Lowered(s, v0, v1, Sender, senders, {}) && Lowered(s, v1, v2, Recipient, recipients, {})
    requires SideDropped(v2, v, acts, Sender) && SideDropped(v2, v, acts, Recipient)
    ensures TakenBack(s, v0, v, acts)
  {
    hide Hit;
    forall d, a ensures CountOf(v, d, a) == CountOf(s, d, a) - |ScanActs(acts, d, a)| {
      CountBack(s, v0, v1, v2, acts, senders, recipients, d, a);
    }
    hide Counted, ScanActs;
    EntriesStay(s, v0, v1, v2, senders, recipients);
    hide Lowered;
    forall d, a, i ensures Emptied(v0, v, acts, d, a, i) {
      match d
      case Sender => assert Dropped(v2, v, acts, Sender, a, i);
      case Recipient => assert Dropped(v2, v, acts, Recipient, a, i);
    }
  }

  lemma CountBack(s: Store, v0: Store, v1: Store, v2: Store, acts: seq<Act>,
                  senders: map<Address, nat>, recipients: map<Address, nat>, d: Side, a: Address)
    requires CountOf(v0, d, a) == CountOf(s, d, a)
    requires Counted(senders, acts, Sender) && Counted(recipients, acts, Recipient)
    requires Lowered(s, v0, v1, Sender, senders, {}) && Lowered(s, v1, v2, Recipient, recipients, {})
    ensures CountOf(v2, d, a) == CountOf(s, d, a) - |ScanActs(acts, d, a)|
  {
    hide CountOf, ScanActs;
    assert CountOf(v2, d, a) == Less(s, v1, Recipient, recipients, {}, d, a);
    assert CountOf(v1, d, a) == Less(s, v0, Sender, senders, {}, d, a);
    if d == Sender {
      assert Plus(senders, a) == |ScanActs(acts, d, a)|;
    } else {
      assert Plus(recipients, a) == |ScanActs(acts, d, a)|;
    }
  }

  lemma EntriesStay(s: Store, v0: Store, v1: Store, v2: Store, senders: map<Address, nat>,
                    recipients: map<Address, nat>)
    requires Lowered(s, v0, v1, Sender, senders, {}) && Lowered(s, v1, v2, Recipient, recipients, {})
    ensures v2 == v0.(counts := v2.counts)
  {
  }

  // ---- pushing and popping a block keeps the index right

  ghost function WithBlock(s: Store, b: Block): Store {
    var h := HashOf(b.header);
    s.(headers := s.headers[h := b.header], bodies := s.bodies[h := b.acts], footers := s.footers[h := b.footer],
       heights := s.heights[h := b.header.height], hashes := s.hashes[b.header.height := h],
       top := if b.header.height > s.top then b.header.height else s.top, total := s.total + |b.acts|)
  }

  ghost function WithoutBlock(s: Store, b: Block): Store
    requires s.top > 0 && s.total >= |b.acts|
  {
    var h := HashOf(b.header);
    s.(headers := s.headers - {h}, bodies := s.bodies - {h}, footers := s.footers - {h},
       heights := s.heights - {h}, hashes := s.hashes - {s.top}, top := s.top - 1, total := s.total - |b.acts|)
  }

  lemma BlockPushed(s: Store, chain: seq<Block>, b: Block)
    requires HoldsBlocks(s, chain) && b.header.height == |chain| + 1
    ensures HoldsBlocks(WithBlock(s, b), chain + [b])
  {
    var to, v := chain + [b], WithBlock(s, b);
    forall n ensures RightHash(v, to, n) { assert RightHash(s, chain, n); }
    forall h ensures RightBlock(v, to, h) {
      assert RightBlock(s, chain, h);
      assert InChain(h, to) <==> InChain(h, chain) || h == HashOf(b.header);
    }
  }

  lemma BlockPopped(s: Store, chain: seq<Block>)
    requires HoldsBlocks(s, chain) && chain != [] && s.total >= |chain[|chain| - 1].acts|
    ensures HoldsBlocks(WithoutBlock(s, chain[|chain| - 1]), chain[..|chain| - 1])
  {
    var b := chain[|chain| - 1];
    var to, v := chain[..|chain| - 1], WithoutBlock(s, b);
    forall n ensures RightHash(v, to, n) { assert RightHash(s, chain, n); }
    forall h ensures RightBlock(v, to, h) {
      assert RightBlock(s, chain, h);
      assert InChain(h, to) <==> InChain(h, chain) && h != HashOf(b.header);
    }
  }

  lemma PushAgrees(s: Store, chain: seq<Block>, b: Block)
    requires Agrees(s, chain) && b.header.height == |chain| + 1
    ensures Agrees(PutActs(WithBlock(s, b), b.acts), chain + [b])
  {
    hide HoldsBlocks;
    var v := WithBlock(s, b);
    BlockPushed(s, chain, b);
    PutActsElsewhere(v, b.acts);
    SameBlocks(v, PutActs(v, b.acts), chain + [b]);
    forall side, a ensures Shows(PutActs(v, b.acts), side, a, Scan(chain + [b], side, a)) {
      ScanPush(chain, b, side, a);
      assert Shows(s, side, a, Scan(chain, side, a));
      PutActsShows(v, b.acts, side, a, Scan(chain, side, a));
    }
    ScanPush(chain, b, Sender, Actions.Address(0));
  }

  lemma SameBlocks(v: Store, w: Store, chain: seq<Block>)
    requires HoldsBlocks(v, chain) && w == v.(counts := w.counts, entries := w.entries)
    ensures HoldsBlocks(w, chain)
  {
    forall n ensures RightHash(w, chain, n) { assert RightHash(v, chain, n); }
    forall h ensures RightBlock(w, chain, h) { assert RightBlock(v, chain, h); }
  }

  lemma CountsSuffice(s: Store, chain: seq<Block>, b: Block)
    requires Agrees(s, chain + [b])
    ensures forall d, a :: CountOf(s, d, a) >= |ScanActs(b.acts, d, a)|
    ensures s.total >= |b.acts|
  {
    forall d, a ensures CountOf(s, d, a) >= |ScanActs(b.acts, d, a)| {
      ScanPush(chain, b, d, a);
      assert Shows(s, d, a, Scan(chain + [b], d, a));
    }
    ScanPush(chain, b, Sender, Actions.Address(0));
  }

  /** Below the lowered count nothing is hit. */
  lemma StillShows(s: Store, v0: Store, v: Store, acts: seq<Act>, side: Side, a: Address, list: seq<ActHash>)
    requires TakenBack(s, v0, v, acts) && v0.entries == s.entries
    requires Shows(s, side, a, list + ScanActs(acts, side, a))
    ensures Shows(v, side, a, list)
  {
    hide ScanActs;
    forall i | 0 <= i < |list| ensures (side, a, i) in v.entries && v.entries[(side, a, i)] == list[i] {
      assert Emptied(v0, v, acts, side, a, i);
      assert (list + ScanActs(acts, side, a))[i] == list[i];
      assert (side, a, i) in s.entries;
    }
  }

  /** Every entry of an address that a taken-back block put in is gone. */
  ghost predicate Clean(s: Store, v: Store, side: Side, a: Address) {
    forall i :: CountOf(v, side, a) <= i < CountOf(s, side, a) ==> (side, a, i) !in v.entries
  }

  /** No entries of a block are left over exactly for the addresses that occur at most twice on a side of it. */
  lemma CleanIff(s: Store, v0: Store, v: Store, acts: seq<Act>, side: Side, a: Address, list: seq<ActHash>)
    requires TakenBack(s, v0, v, acts) && v0.entries == s.entries && Shows(s, side, a, list)
    ensures Clean(s, v, side, a) <==> |ScanActs(acts, side, a)| <= 2
  {
    hide ScanActs;
    var base, times := CountOf(v, side, a), |ScanActs(acts, side, a)|;
    assert forall i :: 0 <= i < |list| ==> (side, a, i) in v0.entries;
    if times > 2 {
      assert Emptied(v0, v, acts, side, a, base + 2);
      SecondPlaceIsMissed(base, times);
      assert base <= base + 2 < CountOf(s, side, a);
    } else {
      forall i | base <= i < CountOf(s, side, a) ensures (side, a, i) !in v.entries {
        assert Emptied(v0, v, acts, side, a, i);
        assert i == base + Triangle(i - base);
        assert Hit(base, times, i);
      }
    }
  }

  lemma SecondPlaceIsMissed(base: nat, times: nat)
    ensures !Hit(base, times, base + 2)
  {
    forall k: nat ensures Triangle(k) != 2 {
      if k > 2 { TriangleGrows(k); }
    }
  }

  lemma {:induction false} TriangleGrows(k: nat)
    ensures Triangle(k) >= k
  {
    if k > 0 { TriangleGrows(k - 1); }
  }

  lemma PopAgrees(s: Store, chain: seq<Block>, b: Block, v: Store)
    requires Agrees(s, chain + [b]) && s.total >= |b.acts|
    requires s.top > 0 && TakenBack(s, WithoutBlock(s, b), v, b.acts)
    ensures Agrees(v, chain)
  {
    hide HoldsBlocks;
    var all := chain + [b];
    assert all[|all| - 1] == b && all[..|all| - 1] == chain;
    BlockPopped(s, all);
    SameBlocks(WithoutBlock(s, b), v, chain);
    forall side, a ensures Shows(v, side, a, Scan(chain, side, a)) {
      ScanPush(chain, b, side, a);
      assert Shows(s, side, a, Scan(all, side, a));
      StillShows(s, WithoutBlock(s, b), v, b.acts, side, a, Scan(chain, side, a));
    }
    ScanPush(chain, b, Sender, Actions.Address(0));
  }

  // ---- blocks at other heights

  /** The block goes on top of the chain, or is in it already and has no actions. */
  ghost predicate FitsChain(b: Block, chain: seq<Block>) {
    b.header.height == |chain| + 1 || (InChain(HashOf(b.header), chain) && b.acts == [])
  }

  /** A header fixes the actions of its block. */
  ghost predicate SameActs(b: Block, chain: seq<Block>) {
    InChain(HashOf(b.header), chain) ==> chain[b.header.height - 1].acts == b.acts
  }

  /** Putting a block leaves an index that agrees with a scan of some chain if and only if the block fits. */
  lemma PutAgreesIff(s: Store, chain: seq<Block>, b: Block, v: Store)
    requires Agrees(s, chain) && SameActs(b, chain) && v == PutActs(WithBlock(s, b), b.acts)
    ensures (exists c :: Agrees(v, c)) <==> FitsChain(b, chain)
  {
    hide Agrees, WithBlock, PutActs;
    if b.header.height == |chain| + 1 {
      PushAgrees(s, chain, b);
    } else if FitsChain(b, chain) {
      PutAgain(s, chain, b);
      assert Agrees(v, chain[b.header.height - 1 := b]);
    } else if c :| Agrees(v, c) {
      OnlyFits(s, chain, b, c);
    }
  }

  lemma {:induction false} ScanReplaced(chain: seq<Block>, i: nat, b: Block, side: Side, a: Address)
    requires i < |chain| && chain[i].acts == b.acts
    ensures Scan(chain[i := b], side, a) == Scan(chain, side, a) && Total(chain[i := b]) == Total(chain)
    decreases |chain|
  {
    var most, to := chain[..|chain| - 1], chain[i := b];
    if i < |chain| - 1 {
      ScanReplaced(most, i, b, side, a);
      assert to[..|to| - 1] == most[i := b];
    } else {
      assert to[..|to| - 1] == most;
    }
  }

  /** A block of the chain without actions, put again, takes its own place. */
  lemma PutAgain(s: Store, chain: seq<Block>, b: Block)
    requires Agrees(s, chain) && InChain(HashOf(b.header), chain)
    requires b.acts == [] && chain[b.header.height - 1].acts == []
    ensures Agrees(PutActs(WithBlock(s, b), b.acts), chain[b.header.height - 1 := b])
  {
    var i := b.header.height - 1;
    var v, to := WithBlock(s, b), chain[i := b];
    assert PutActs(v, b.acts) == v;
    forall n ensures RightHash(v, to, n) { assert RightHash(s, chain, n); }
    forall h ensures RightBlock(v, to, h) {
      assert RightBlock(s, chain, h);
      assert InChain(h, to) <==> InChain(h, chain);
    }
    forall side, a ensures Shows(v, side, a, Scan(to, side, a)) {
      ScanReplaced(chain, i, b, side, a);
      assert Shows(s, side, a, Scan(chain, side, a));
    }
    ScanReplaced(chain, i, b, Sender, Actions.Address(0));
  }

  lemma OnlyFits(s: Store, chain: seq<Block>, b: Block, c: seq<Block>)
    requires Agrees(s, chain) && SameActs(b, chain) && Agrees(PutActs(WithBlock(s, b), b.acts), c)
    ensures FitsChain(b, chain)
  {
    var v, h, n := PutActs(WithBlock(s, b), b.acts), HashOf(b.header), b.header.height;
    PutActsElsewhere(WithBlock(s, b), b.acts);
    hide PutActs, Shows, Total, Scan;
    assert RightBlock(v, c, h) && RightHash(v, c, n);
    assert RightHash(v, c, |chain| + 1) && RightHash(s, chain, |chain| + 1);
    if 1 <= n <= |chain| {
      var o := HashOf(chain[n - 1].header);
      assert RightBlock(s, chain, o) && RightBlock(v, c, o);
      if h == o { PutAgainIsEmpty(s, chain, b, v, c); }
    }
  }

  lemma PutAgainIsEmpty(s: Store, chain: seq<Block>, b: Block, v: Store, c: seq<Block>)
    requires HoldsBlocks(s, chain) && s.total == Total(chain) && HoldsBlocks(v, c) && v.total == Total(c)
    requires v == WithBlock(s, b).(counts := v.counts, entries := v.entries)
    requires InChain(HashOf(b.header), chain) && SameActs(b, chain)
    ensures b.acts == []
  {
    forall i | 0 <= i < |chain| ensures c[i].acts == chain[i].acts {
      assert RightHash(s, chain, i + 1) && RightHash(v, c, i + 1);
      assert RightBlock(s, chain, HashOf(chain[i].header)) && RightBlock(v, c, HashOf(chain[i].header));
    }
    SameTotal(chain, c);
  }

  lemma {:induction false} SameTotal(a: seq<Block>, b: seq<Block>)
    requires |a| == |b| && forall i :: 0 <= i < |a| ==> a[i].acts == b[i].acts
    ensures Total(a) == Total(b)
  {
    if a != [] { SameTotal(a[..|a| - 1], b[..|b| - 1]); }
  }

  // ---- the batches of the two operations

  lemma ApplyFour(s: Store, a: Write, b: Write, c: Write, d: Write)
    ensures ApplyAll(s, [a, b, c, d]) == Apply(Apply(Apply(Apply(s, a), b), c), d)
  {
    hide Apply;
    assert ApplyAll(s, []) == s;
    hide ApplyAll;
    ApplyMore(s, [], a);
    ApplyMore(s, [a], b);
    ApplyMore(s, [a, b], c);
    ApplyMore(s, [a, b, c], d);
    assert [] + [a] == [a] && [a] + [b] == [a, b] && [a, b] + [c] == [a, b, c] && [a, b, c] + [d] == [a, b, c, d];
  }

  lemma ApplyFive(s: Store, a: Write, b: Write, c: Write, d: Write, e: Write)
    ensures ApplyAll(s, [a, b, c, d, e]) == Apply(Apply(Apply(Apply(Apply(s, a), b), c), d), e)
  {
    hide Apply;
    ApplyFour(s, a, b, c, d);
    hide ApplyAll;
    ApplyMore(s, [a, b, c, d], e);
    assert [a, b, c, d] + [e] == [a, b, c, d, e];
  }

  /** What putting a block writes before its index entries; the height only if it is above the top. */
  function PutWrites(s: Store, b: Block): seq<Write> {
    var h, n := HashOf(b.header), b.header.height;
    [PutParts(h, b), PutHeight(h, n), PutHash(n, h)] + (if n > s.top then [PutTop(n)] else [])
        + [PutTotal(s.total + |b.acts|)]
  }

  lemma PushBatch(s: Store, b: Block)
    ensures ApplyAll(s, PutWrites(s, b)) == WithBlock(s, b)
  {
    hide ApplyAll;
    var h, n, t := HashOf(b.header), b.header.height, PutTotal(s.total + |b.acts|);
    if n > s.top {
      assert PutWrites(s, b) == [PutParts(h, b), PutHeight(h, n), PutHash(n, h), PutTop(n), t];
      ApplyFive(s, PutParts(h, b), PutHeight(h, n), PutHash(n, h), PutTop(n), t);
    } else {
      assert PutWrites(s, b) == [PutParts(h, b), PutHeight(h, n), PutHash(n, h), t];
      ApplyFour(s, PutParts(h, b), PutHeight(h, n), PutHash(n, h), t);
    }
  }

  lemma NothingTracked(s: Store, b: Block)
    ensures Tracks(map[], s, WithBlock(s, b), Sender) && Tracks(map[], s, WithBlock(s, b), Recipient)
  {
  }

  /** What deleting the tip block writes before its index entries go. */
  function PopWrites(s: Store, b: Block): seq<Write>
    requires s.top > 0 && s.total >= |b.acts|
  {
    var h := HashOf(b.header);
    [DeleteParts(h), DeleteHeight(h), DeleteHash(s.top), PutTop(s.top - 1), PutTotal(s.total - |b.acts|)]
  }

  lemma PopBatch(s: Store, b: Block)
    requires s.top > 0 && s.total >= |b.acts|
    ensures ApplyAll(s, PopWrites(s, b)) == WithoutBlock(s, b)
    ensures forall d, a :: CountOf(WithoutBlock(s, b), d, a) == CountOf(s, d, a)
  {
    hide ApplyAll;
    var h, n := HashOf(b.header), s.top;
    ApplyFive(s, DeleteParts(h), DeleteHeight(h), DeleteHash(n), PutTop(n - 1), PutTotal(s.total - |b.acts|));
  }
}
