/** The block-sync buffer (blocksync/buffer.go): blocks that came early, and what is still missing. */
module SyncBuffer {
  import opened Options

  datatype Block = Block(height: nat, id: nat)
  datatype Checkin = Valid | Lower | Existing | Higher | SkipNil

  /** How committing a block ends: done, refused because the chain's tip has moved, or a blocking error. */
  datatype Outcome = Committed | InvalidTip | Blocked

  datatype Interval = Interval(start: nat, end: nat)

  // ---- sizes

  lemma {:induction false} FitsInRange(hs: set<nat>, low: nat, n: nat)
    requires forall h :: h in hs ==> low < h <= low + n
    ensures |hs| <= n
  {
    if n == 0 {
      assert hs == {};
    } else {
      FitsInRange(hs - {low + n}, low, n - 1);
    }
  }

  // ---- what Flush passes on

  /** From the height after the tip, every block that is buffered and does not block, up to the given height. */
  ghost predicate Passes(buffered: map<nat, Block>, outcome: nat -> Outcome, tip: nat, h: nat) {
    forall k :: tip < k < h ==> k in buffered && outcome(k) != Blocked
  }

  /** The first height the flush does not get past. */
  ghost predicate StopsAt(buffered: map<nat, Block>, outcome: nat -> Outcome, tip: nat, limit: nat, stop: nat) {
    && tip < stop <= limit + 1
    && Passes(buffered, outcome, tip, stop)
    && (stop <= limit ==> stop !in buffered || outcome(stop) == Blocked)
  }

  /** The heights handed to the chain: those passed, and the one that blocked. */
  ghost predicate IsHanded(buffered: map<nat, Block>, tip: nat, limit: nat, stop: nat, h: nat) {
    tip < h && (h < stop || (h == stop <= limit && h in buffered))
  }

  /** The blocks given to the chain are the buffered ones, in order from the height after the tip. */
  ghost predicate InOrder(buffered: map<nat, Block>, tip: nat, limit: nat, stop: nat, handed: seq<Block>) {
    && (forall h: nat :: IsHanded(buffered, tip, limit, stop, h) <==> tip < h <= tip + |handed|)
    && (forall i :: 0 <= i < |handed| ==> tip + 1 + i in buffered && handed[i] == buffered[tip + 1 + i])
  }

  /** Above the tip, what stays is what was not handed on; below it, blocks may have been dropped. */
  ghost predicate Remains(buffered: map<nat, Block>, tip: nat, limit: nat, stop: nat, blocks: map<nat, Block>) {
    && (forall h :: h in blocks ==> h in buffered && blocks[h] == buffered[h])
    && (forall h :: h in buffered && h > tip && !IsHanded(buffered, tip, limit, stop, h) ==> h in blocks)
    && (forall h :: h in blocks ==> !IsHanded(buffered, tip, limit, stop, h))
  }

  /** Getting past a height is the same as every height up to it being buffered and not blocking. */
  lemma StopDecides(buffered: map<nat, Block>, outcome: nat -> Outcome, tip: nat, limit: nat, stop: nat, h: nat)
    requires StopsAt(buffered, outcome, tip, limit, stop) && tip < h <= limit
    ensures stop > h <==> Passes(buffered, outcome, tip, h + 1)
  {
  }

  lemma RemainsFewer(buffered: map<nat, Block>, tip: nat, limit: nat, stop: nat, blocks: map<nat, Block>)
    requires Remains(buffered, tip, limit, stop, blocks)
    ensures forall h :: h in blocks ==> h in buffered && blocks[h] == buffered[h]
    ensures Remains(buffered, tip, limit, stop, Above(blocks, tip))
  {
  }

  /** What was not handed on. */
  ghost function NotHanded(buffered: map<nat, Block>, tip: nat, limit: nat, stop: nat): map<nat, Block> {
    map h | h in buffered && !IsHanded(buffered, tip, limit, stop, h) :: buffered[h]
  }

  /** The blocks above a height. */
  ghost function Above(blocks: map<nat, Block>, tip: nat): map<nat, Block> {
    map h | h in blocks && h > tip :: blocks[h]
  }

  // ---- what is missing

  /**
  The last height asked for: none if the tip is there already, else within the buffer's reach but at least one
  interval.
  */
  function Clamped(target: nat, tip: nat, bufferSize: nat, intervalSize: nat): nat {
    if tip >= target then tip
    else
      var near := if target > tip + bufferSize then tip + bufferSize else target;
      if near < tip + intervalSize then tip + intervalSize else near
  }

  ghost predicate Covers(bi: seq<Interval>, h: nat) {
    exists i :: 0 <= i < |bi| && bi[i].start <= h <= bi[i].end
  }

  ghost predicate Ascending(bi: seq<Interval>) {
    forall i, j :: 0 <= i < j < |bi| ==> bi[i].end < bi[j].start
  }

  /** Not empty, not too long, and short only where a buffered block or the target cuts it off. */
  ghost predicate Greedy(x: Interval, blocks: map<nat, Block>, upto: nat, intervalSize: nat) {
    var most := if intervalSize == 0 then 1 else intervalSize;
    && 1 <= x.end + 1 - x.start <= most
    && (x.end + 1 - x.start < most ==> x.end == upto || x.end + 1 in blocks)
  }

  /** The intervals are ascending, disjoint and greedy, and ask for exactly the missing heights below a given one. */
  ghost predicate Plan(bi: seq<Interval>, blocks: map<nat, Block>, tip: nat, h: nat, upto: nat, intervalSize: nat) {
    && Ascending(bi)
    && (forall i :: 0 <= i < |bi| ==> bi[i].end < h && Greedy(bi[i], blocks, upto, intervalSize))
    && (forall k: nat :: Covers(bi, k) <==> tip < k < h && k !in blocks)
  }

  ghost predicate AllMissing(blocks: map<nat, Block>, low: nat, high: nat) {
    forall h :: low <= h < high ==> h !in blocks
  }

  lemma OneMoreMissing(blocks: map<nat, Block>, low: nat, h: nat)
    requires h !in blocks && (low == h || AllMissing(blocks, low, h))
    ensures AllMissing(blocks, low, h + 1)
  {
  }

  lemma CoversMore(bi: seq<Interval>, x: Interval, h: nat)
    ensures Covers(bi + [x], h) <==> Covers(bi, h) || x.start <= h <= x.end
  {
    var all := bi + [x];
    if Covers(bi, h) {
      var i :| 0 <= i < |bi| && bi[i].start <= h <= bi[i].end;
      assert all[i] == bi[i];
    }
    if x.start <= h <= x.end { assert all[|bi|] == x; }
  }

  lemma PlanMore(bi: seq<Interval>, x: Interval, blocks: map<nat, Block>, tip: nat, upto: nat, intervalSize: nat)
    requires Plan(bi, blocks, tip, x.start, upto, intervalSize) && tip < x.start
    requires Greedy(x, blocks, upto, intervalSize) && AllMissing(blocks, x.start, x.end + 1)
    ensures Plan(bi + [x], blocks, tip, x.end + 1, upto, intervalSize)
  {
    forall k: nat ensures Covers(bi + [x], k) <==> tip < k < x.end + 1 && k !in blocks {
      CoversMore(bi, x, k);
      assert Covers(bi, k) <==> tip < k < x.start && k !in blocks;
    }
  }

  lemma PlanNone(blocks: map<nat, Block>, tip: nat, upto: nat, intervalSize: nat)
    ensures Plan([], blocks, tip, tip + 1, upto, intervalSize)
  {
  }

  lemma PlanSkip(bi: seq<Interval>, blocks: map<nat, Block>, tip: nat, h: nat, upto: nat, intervalSize: nat)
    requires Plan(bi, blocks, tip, h, upto, intervalSize) && h in blocks
    ensures Plan(bi, blocks, tip, h + 1, upto, intervalSize)
  {
  }

  /** Where one plan has an interval, any other that agrees so far has the same one. */
  lemma SameNext(a: seq<Interval>, b: seq<Interval>, i: nat, blocks: map<nat, Block>, tip: nat, upto: nat,
                 intervalSize: nat)
    requires Plan(a, blocks, tip, upto + 1, upto, intervalSize) && Plan(b, blocks, tip, upto + 1, upto, intervalSize)
    requires i < |a| && i <= |b| && a[..i] == b[..i]
    ensures i < |b| && a[i] == b[i]
  {
    StartsNoEarlier(a, b, i, blocks, tip, upto, intervalSize);
    StartsNoEarlier(b, a, i, blocks, tip, upto, intervalSize);
    EndsNoEarlier(a[i], b, i, blocks, tip, upto, intervalSize);
    EndsNoEarlier(b[i], a, i, blocks, tip, upto, intervalSize);
  }

  lemma StartsNoEarlier(a: seq<Interval>, b: seq<Interval>, i: nat, blocks: map<nat, Block>, tip: nat, upto: nat,
                        intervalSize: nat)
    requires Plan(a, blocks, tip, upto + 1, upto, intervalSize) && Plan(b, blocks, tip, upto + 1, upto, intervalSize)
    requires i < |a| && i <= |b| && a[..i] == b[..i]
    ensures i < |b| && b[i].start <= a[i].start
  {
    var h := a[i].start;
    assert Covers(a, h);
    assert Covers(b, h);
    forall k | 0 <= k < i ensures b[k].end < h {
      assert a[..i][k] == b[..i][k];
    }
  }

  lemma EndsNoEarlier(x: Interval, b: seq<Interval>, i: nat, blocks: map<nat, Block>, tip: nat, upto: nat,
                      intervalSize: nat)
    requires Greedy(x, blocks, upto, intervalSize) && Plan(b, blocks, tip, upto + 1, upto, intervalSize)
    requires i < |b| && b[i].start == x.start
    ensures x.end >= b[i].end
  {
    if x.end < b[i].end {
      assert Covers(b, x.end + 1);
    }
  }

  /** There is one plan: the result of the scan is determined by the buffer, the tip and the target. */
  lemma OnePlan(a: seq<Interval>, b: seq<Interval>, blocks: map<nat, Block>, tip: nat, upto: nat, intervalSize: nat)
    requires Plan(a, blocks, tip, upto + 1, upto, intervalSize) && Plan(b, blocks, tip, upto + 1, upto, intervalSize)
    ensures a == b
  {
    var i := 0;
    while i < |a|
      invariant i <= |a| && i <= |b| && a[..i] == b[..i]
    {
      SameNext(a, b, i, blocks, tip, upto, intervalSize);
      i := i + 1;
    }
    if |b| > |a| {
      SameNext(b, a, |a|, blocks, tip, upto, intervalSize);
    }
  }

  class BlockBuffer {
    var blocks: map<nat, Block>
    const bufferSize: nat
    const intervalSize: nat
    var commitHeight: nat
    ghost var tipSeen: nat

    /** Every block sits under its own height, none beyond the buffer's reach from the tip last seen. */
    ghost predicate Valid()
      reads this
    {
      forall h :: h in blocks ==> blocks[h].height == h <= tipSeen + bufferSize
    }

    constructor (bufferSize: nat, intervalSize: nat)
      ensures Valid() && blocks == map[] && this.bufferSize == bufferSize && this.intervalSize == intervalSize
    {
      this.bufferSize, this.intervalSize := bufferSize, intervalSize;
      blocks, commitHeight, tipSeen := map[], 0, 0;
    }

    /**
    Takes a block in, then commits from the height after the tip as far as it gets.
    `handed` lists the blocks given to the chain, in order.
    */
    method Flush(blk: Option<Block>, tip: nat, outcome: nat -> Outcome)
      returns (moved: bool, result: Checkin, handed: seq<Block>, ghost stop: nat)
      requires Valid() && tip >= tipSeen
      modifies this
      ensures Valid() && tipSeen == tip
      ensures result == if blk.None? then SkipNil
                        else if blk.value.height <= tip then Lower
                        else if blk.value.height in old(blocks) then Existing
                        else if blk.value.height > tip + bufferSize then Higher
                        else Checkin.Valid
      ensures !result.Valid? ==> !moved && handed == [] && blocks == old(blocks) && commitHeight == old(commitHeight)
      ensures result.Valid? ==>
        var h, limit := blk.value.height, tip + bufferSize;
        var buffered := old(blocks)[h := blk.value];
        && StopsAt(buffered, outcome, tip, limit, stop)
        && (moved <==> Passes(buffered, outcome, tip, h + 1))
        && InOrder(buffered, tip, limit, stop, handed)
        && commitHeight == (if stop == tip + 1 then old(commitHeight) else stop - 1)
        && Remains(buffered, tip, limit, stop, blocks)
        && (var rest := NotHanded(buffered, tip, limit, stop);
            blocks == if |rest| > 2 * bufferSize then Above(rest, tip) else rest)
        && |blocks| <= 2 * bufferSize
    {
      hide StopsAt, Passes, InOrder, Remains, NotHanded, Above;
      moved, handed, stop := false, [], tip + 1;
      tipSeen := tip;
      if blk.None? {
        return false, SkipNil, [], stop;
      }
      var height := blk.value.height;
      if height <= tip {
        return false, Lower, [], stop;
      }
      if height in blocks {
        return false, Existing, [], stop;
      }
      if height > tip + bufferSize {
        return false, Higher, [], stop;
      }
      blocks := blocks[height := blk.value];
      ghost var buffered := blocks;
      var toSync;
      toSync, handed := CommitFrom(tip, outcome);
      stop := toSync;
      result, moved := Checkin.Valid, toSync > height;
      StopDecides(buffered, outcome, tip, tip + bufferSize, stop, height);
      RemainsFewer(buffered, tip, tip + bufferSize, stop, blocks);
      Trim(tip);
    }

    /** Past twice its size the buffer sheds what the chain already has; that is always enough. */
    method Trim(tip: nat)
      requires forall h :: h in blocks ==> h <= tip + bufferSize
      modifies this`blocks
      ensures blocks == if |old(blocks)| > 2 * bufferSize then Above(old(blocks), tip) else old(blocks)
      ensures |blocks| <= 2 * bufferSize
    {
      if |blocks| > bufferSize * 2 {
        DropUpTo(tip);
        FitsInRange(blocks.Keys, tip, bufferSize);
      }
    }

    /** Commits block after block until one is missing, one blocks, or the buffer's reach is exhausted. */
    method CommitFrom(tip: nat, outcome: nat -> Outcome) returns (toSync: nat, handed: seq<Block>)
      modifies this`blocks, this`commitHeight
      ensures StopsAt(old(blocks), outcome, tip, tip + bufferSize, toSync)
      ensures InOrder(old(blocks), tip, tip + bufferSize, toSync, handed)
      ensures Remains(old(blocks), tip, tip + bufferSize, toSync, blocks)
      ensures blocks == NotHanded(old(blocks), tip, tip + bufferSize, toSync)
      ensures commitHeight == if toSync == tip + 1 then old(commitHeight) else toSync - 1
    {
      toSync, handed := tip + 1, [];
      while toSync <= tip + bufferSize
        invariant tip < toSync <= tip + bufferSize + 1
        invariant Passes(old(blocks), outcome, tip, toSync)
        invariant forall h :: h in blocks ==> h in old(blocks) && blocks[h] == old(blocks)[h]
        invariant forall h :: h in old(blocks) ==> (h in blocks <==> !(tip < h < toSync))
        invariant |handed| == toSync - tip - 1
        invariant forall i :: 0 <= i < |handed| ==> tip + 1 + i in old(blocks) && handed[i] == old(blocks)[tip + 1 + i]
        invariant commitHeight == if toSync == tip + 1 then old(commitHeight) else toSync - 1
      {
        if toSync !in blocks {
          break;
        }
        handed := handed + [blocks[toSync]];
        blocks := blocks - {toSync};
        if outcome(toSync) == Blocked {
          break;
        }
        commitHeight := toSync;
        toSync := toSync + 1;
      }
    }

    /** Forgets the blocks at or below a height. */
    method DropUpTo(tip: nat)
      modifies this`blocks
      ensures blocks == Above(old(blocks), tip)
    {
      var todo := blocks.Keys;
      while todo != {}
        invariant todo <= old(blocks).Keys
        invariant forall h :: h in blocks <==> h in old(blocks) && (h > tip || h in todo)
        invariant forall h :: h in blocks ==> blocks[h] == old(blocks)[h]
        decreases todo
      {
        var h :| h in todo;
        if h <= tip {
          blocks := blocks - {h};
        }
        todo := todo - {h};
      }
    }

    /** The heights to ask peers for. */
    method GetBlocksIntervalsToSync(target: nat, tip: nat) returns (bi: seq<Interval>)
      ensures var upto := Clamped(target, tip, bufferSize, intervalSize);
              Plan(bi, blocks, tip, upto + 1, upto, intervalSize)
      ensures forall k: nat :: Covers(bi, k) <==>
                && tip < target && tip < k && k !in blocks
                && (k <= tip + intervalSize || (k <= target && k <= tip + bufferSize))
    {
      if tip >= target {
        PlanNone(blocks, tip, tip, intervalSize);
        return [];
      }
      var upto := target;
      if upto > tip + bufferSize {
        upto := tip + bufferSize;
      }
      if upto < tip + intervalSize {
        upto := tip + intervalSize;
      }
      bi := ScanMissing(tip, upto);
    }

    method ScanMissing(tip: nat, upto: nat) returns (bi: seq<Interval>)
      requires tip <= upto
      ensures Plan(bi, blocks, tip, upto + 1, upto, intervalSize)
    {
      hide Plan, AllMissing;
      bi := [];
      PlanNone(blocks, tip, upto, intervalSize);
      var start, startSet, iLen := 0, false, 0;
      var h := tip + 1;
      while h <= upto
        invariant tip < h <= upto + 1
        invariant startSet ==> tip < start < h && iLen == h - start < intervalSize
        invariant !startSet ==> iLen == 0
        invariant Plan(bi, blocks, tip, if startSet then start else h, upto, intervalSize)
        invariant startSet ==> AllMissing(blocks, start, h)
      {
        if h !in blocks {
          iLen := iLen + 1;
          if !startSet {
            start, startSet := h, true;
          }
          OneMoreMissing(blocks, start, h);
          if iLen >= intervalSize {
            PlanMore(bi, Interval(start, h), blocks, tip, upto, intervalSize);
            bi := bi + [Interval(start, h)];
            startSet, iLen := false, 0;
          }
        } else {
          if startSet {
            PlanMore(bi, Interval(start, h - 1), blocks, tip, upto, intervalSize);
            bi := bi + [Interval(start, h - 1)];
            startSet, iLen := false, 0;
          }
          PlanSkip(bi, blocks, tip, h, upto, intervalSize);
        }
        h := h + 1;
      }
      if startSet {
        PlanMore(bi, Interval(start, upto), blocks, tip, upto, intervalSize);
        bi := bi + [Interval(start, upto)];
      }
    }
  }
}
