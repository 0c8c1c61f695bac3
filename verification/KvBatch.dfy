/**
The cached batch (db/batch.go, db/kv_cache.go): a queue of writes, a cache of
what they come to, and snapshots of both.

Reverting installs the snapshot's own cache, not a copy of it, so writes that
follow change the snapshot as well. The state machine below keeps track of the
writes each cache has really seen; the classes are shown to follow it, and the
lemmas say for which runs the cache is right.
*/
module KvBatch {
  import opened Options
  import opened ByteStrings

  type Bytes = seq<Byte>

  datatype Write =
    | PutWrite(namespace: Bytes, key: Bytes, value: Bytes)
    | DeleteWrite(namespace: Bytes, key: Bytes)
  {
    /** What the cache is keyed by: a hash of the two strings joined. */
    function CacheKey(): Bytes {
      namespace + key
    }
  }

  /** Live entries and tombstones. */
  datatype Cache = Cache(live: map<Bytes, Bytes>, deleted: set<Bytes>)

  datatype Answer = Found(value: Bytes) | AlreadyDeleted | NotExist

  function Read(c: Cache, k: Bytes): Answer {
    if k in c.live then Found(c.live[k])
    else if k in c.deleted then AlreadyDeleted
    else NotExist
  }

  function Apply(c: Cache, w: Write): Cache {
    match w
    case PutWrite(_, _, v) => Cache(c.live[w.CacheKey() := v], c.deleted - {w.CacheKey()})
    case DeleteWrite(_, _) => Cache(c.live - {w.CacheKey()}, c.deleted + {w.CacheKey()})
  }

  const EMPTY := Cache(map[], {})

  /** The cache that a queue of writes comes to. */
  function Replay(ws: seq<Write>): Cache {
    if ws == [] then EMPTY else Apply(Replay(ws[..|ws| - 1]), ws[|ws| - 1])
  }

  lemma ReplayAppend(ws: seq<Write>, w: Write)
    ensures Replay(ws + [w]) == Apply(Replay(ws), w)
  {
    assert (ws + [w])[..|ws|] == ws;
  }

  // ---- what a lookup in the cache means

  /** The last write to a record, if any. */
  function LastWrite(ws: seq<Write>, namespace: Bytes, key: Bytes): Option<Write> {
    if ws == [] then None
    else
      var w := ws[|ws| - 1];
      if w.namespace == namespace && w.key == key then Some(w)
      else LastWrite(ws[..|ws| - 1], namespace, key)
  }

  function AnswerOf(w: Option<Write>): Answer {
    match w
    case None => NotExist
    case Some(PutWrite(_, _, v)) => Found(v)
    case Some(DeleteWrite(_, _)) => AlreadyDeleted
  }

  /** No name is the beginning of another. */
  ghost predicate PrefixFree(names: set<Bytes>) {
    forall m, n :: m in names && n in names && m <= n ==> m == n
  }

  ghost predicate WritesIn(ws: seq<Write>, names: set<Bytes>) {
    forall w :: w in ws ==> w.namespace in names
  }

  lemma JoinedApart(m: Bytes, n: Bytes, j: Bytes, k: Bytes)
    requires m + j == n + k && !(m < n) && !(n < m)
    ensures m == n && j == k
  {
    var t := m + j;
    assert m == t[..|m|] && n == t[..|n|];
    assert |m| <= |n| ==> m == n[..|m|];
    assert |n| <= |m| ==> n == m[..|n|];
    assert j == t[|m|..] && k == t[|n|..];
  }

  /** The same name, or neither the beginning of the other. */
  predicate Apart(m: Bytes, n: Bytes) {
    m == n || (!(m <= n) && !(n <= m))
  }

  ghost predicate AllApart(ws: seq<Write>, namespace: Bytes) {
    forall w :: w in ws ==> Apart(w.namespace, namespace)
  }

  lemma {:induction false} CacheIsLastWrite(ws: seq<Write>, namespace: Bytes, key: Bytes)
    requires AllApart(ws, namespace)
    ensures Read(Replay(ws), namespace + key) == AnswerOf(LastWrite(ws, namespace, key))
  {
    if ws != [] {
      var w := ws[|ws| - 1];
      var before := ws[..|ws| - 1];
      assert w in ws;
      CacheIsLastWrite(before, namespace, key);
      if w.CacheKey() == namespace + key {
        JoinedApart(w.namespace, namespace, w.key, key);
      }
    }
  }

  /** The cache answers like the queue, ... */
  ghost predicate AnswersLikeQueue(names: set<Bytes>) {
    forall ws: seq<Write>, namespace: Bytes, key: Bytes ::
      WritesIn(ws, names) && namespace in names ==>
        Read(Replay(ws), namespace + key) == AnswerOf(LastWrite(ws, namespace, key))
  }

  /** ... for all queues over some namespaces, exactly when no namespace begins another. */
  lemma AnswersLikeQueueIff(names: set<Bytes>)
    ensures AnswersLikeQueue(names) <==> PrefixFree(names)
  {
    if PrefixFree(names) {
      forall ws: seq<Write>, namespace: Bytes, key: Bytes | WritesIn(ws, names) && namespace in names
        ensures Read(Replay(ws), namespace + key) == AnswerOf(LastWrite(ws, namespace, key))
      {
        assert AllApart(ws, namespace);
        CacheIsLastWrite(ws, namespace, key);
      }
    } else {
      var m, n :| m in names && n in names && m <= n && m != n;
      var rest := n[|m|..];
      var ws := [PutWrite(n, [], [])];
      assert m + rest == n + [];
      ReplayAppend([], ws[0]);
      assert [] + ws == ws;
      assert LastWrite(ws, m, rest) == None;
      assert Read(Replay(ws), m + rest) == Found([]);
      assert WritesIn(ws, names);
      assert !AnswersLikeQueue(names);
    }
  }

  // ---- the state machine

  /**
  A snapshot: how long the queue was, how many writes the cache had seen, and the writes its own copy has seen
  by now.
  */
  datatype Shot = Shot(size: nat, base: nat, seen: seq<Write>)

  /**
  `seen` are the writes the current cache has seen, `installed` the snapshot
  whose cache it is, if any, `touched` the snapshots written to through it.
  */
  datatype State = State(
    queue: seq<Write>,
    seen: seq<Write>,
    shots: seq<Shot>,
    installed: Option<nat>,
    touched: set<nat>)

  const INITIAL := State([], [], [], None, {})

  datatype Op = WriteOp(w: Write) | SnapshotOp | RevertOp(shot: int) | ClearOp

  function Step(s: State, op: Op): State
    requires Bounded(s)
  {
    match op
    case WriteOp(w) => Written(s, w)
    case SnapshotOp => s.(shots := s.shots + [Shot(|s.queue|, |s.seen|, s.seen)])
    case RevertOp(n) => if 0 <= n < |s.shots| then Reverted(s, n) else s
    case ClearOp => INITIAL
  }

  function Written(s: State, w: Write): State
    requires Bounded(s)
  {
    var to := s.(queue := s.queue + [w], seen := s.seen + [w]);
    match s.installed
    case None => to
    case Some(i) => to.(shots := s.shots[i := s.shots[i].(seen := s.seen + [w])], touched := s.touched + {i})
  }

  function Reverted(s: State, n: nat): State
    requires n < |s.shots| && s.shots[n].size <= |s.queue|
  {
    State(s.queue[..s.shots[n].size], s.shots[n].seen, s.shots[..n + 1], Some(n), set i | i in s.touched && i <= n)
  }

  /** Truncation stays within the queue, an installed snapshot is still there and shares its cache. */
  ghost predicate Bounded(s: State) {
    && (forall i :: 0 <= i < |s.shots| ==> s.shots[i].size <= |s.queue| && s.shots[i].base <= |s.shots[i].seen|)
    && (forall i, j :: 0 <= i < j < |s.shots| ==> s.shots[i].size <= s.shots[j].size)
    && (s.installed.Some? ==> s.installed.value < |s.shots| && s.shots[s.installed.value].seen == s.seen)
    && (forall i :: i in s.touched ==> i < |s.shots|)
  }

  lemma StepBounded(s: State, op: Op)
    requires Bounded(s)
    ensures Bounded(Step(s, op))
  {
  }

  function Run(s: State, ops: seq<Op>): (to: State)
    requires Bounded(s)
    ensures Bounded(to)
    decreases |ops|
  {
    if ops == [] then s
    else
      var before := Run(s, ops[..|ops| - 1]);
      StepBounded(before, ops[|ops| - 1]);
      Step(before, ops[|ops| - 1])
  }

  /** No step reverts to a snapshot that was reverted to before and then written to. */
  ghost predicate Disciplined(s: State, ops: seq<Op>)
    requires Bounded(s)
    decreases |ops|
  {
    ops == [] ||
    (Disciplined(s, ops[..|ops| - 1]) && Allowed(Run(s, ops[..|ops| - 1]), ops[|ops| - 1]))
  }

  ghost predicate Allowed(s: State, op: Op) {
    op.RevertOp? && 0 <= op.shot < |s.shots| ==> op.shot !in s.touched
  }

  /** Every cache has seen exactly the writes of its queue, except in touched snapshots. */
  ghost predicate Faithful(s: State)
    requires Bounded(s)
  {
    && s.seen == s.queue
    && (forall i :: 0 <= i < |s.shots| ==> s.queue[..s.shots[i].size] <= s.shots[i].seen)
    && (forall i :: 0 <= i < |s.shots| && i !in s.touched ==> s.shots[i].seen == s.queue[..s.shots[i].size])
  }

  lemma StepFaithful(s: State, op: Op)
    requires Bounded(s) && Faithful(s) && Allowed(s, op)
    ensures Bounded(Step(s, op)) && Faithful(Step(s, op))
  {
    var to := Step(s, op);
    StepBounded(s, op);
    forall i | 0 <= i < |to.shots|
      ensures to.queue[..to.shots[i].size] <= to.shots[i].seen
      ensures i !in to.touched ==> to.shots[i].seen == to.queue[..to.shots[i].size]
    {
      PrefixStays(s, op, i);
    }
  }

  lemma PrefixStays(s: State, op: Op, i: nat)
    requires Bounded(s) && Faithful(s) && i < |Step(s, op).shots|
    ensures var to := Step(s, op);
            && to.shots[i].size <= |to.queue|
            && to.queue[..to.shots[i].size] <= to.shots[i].seen
            && (i !in to.touched ==> to.shots[i].seen == to.queue[..to.shots[i].size])
  {
    var to := Step(s, op);
    if i < |s.shots| {
      var q := s.queue[..s.shots[i].size];
      if op.RevertOp? && 0 <= op.shot < |s.shots| {
        assert s.shots[i].size <= s.shots[op.shot].size;
      }
      assert to.queue[..s.shots[i].size] == q;
    } else {
      assert s.queue == s.queue[..|s.queue|];
    }
  }

  /** In every disciplined run the cache is the replay of the queue. */
  lemma {:induction false} CacheIsReplay(ops: seq<Op>)
    requires Disciplined(INITIAL, ops)
    ensures Faithful(Run(INITIAL, ops))
    ensures Replay(Run(INITIAL, ops).seen) == Replay(Run(INITIAL, ops).queue)
    decreases |ops|
  {
    if ops != [] {
      CacheIsReplay(ops[..|ops| - 1]);
      StepFaithful(Run(INITIAL, ops[..|ops| - 1]), ops[|ops| - 1]);
    }
  }

  /** The snapshot is neither thrown away by a revert to an earlier one nor by a clear. */
  ghost predicate Keeps(n: nat, ops: seq<Op>) {
    forall op :: op in ops ==> !op.ClearOp? && (op.RevertOp? && op.shot >= 0 ==> op.shot >= n)
  }

  lemma ShotStep(s: State, op: Op, n: nat)
    requires Bounded(s) && n < |s.shots| && Keeps(n, [op])
    ensures var to := Step(s, op);
            && n < |to.shots| && to.shots[n].size == s.shots[n].size
            && s.shots[n].size <= |to.queue| && to.queue[..s.shots[n].size] == s.queue[..s.shots[n].size]
  {
    assert op in [op];
    if op.RevertOp? && 0 <= op.shot < |s.shots| {
      assert s.shots[n].size <= s.shots[op.shot].size;
    }
  }

  lemma {:induction false} ShotStays(s: State, n: nat, ops: seq<Op>)
    requires Bounded(s) && n < |s.shots| && Keeps(n, ops)
    ensures var to := Run(s, ops);
            && n < |to.shots| && to.shots[n].size == s.shots[n].size
            && to.queue[..s.shots[n].size] == s.queue[..s.shots[n].size]
    decreases |ops|
  {
    if ops != [] {
      hide Step;
      var most, op := ops[..|ops| - 1], ops[|ops| - 1];
      assert op in ops;
      ShotStays(s, n, most);
      ShotStep(Run(s, most), op, n);
    }
  }

  lemma {:induction false} RunAppend(s: State, a: seq<Op>, b: seq<Op>)
    requires Bounded(s)
    ensures Run(s, a + b) == Run(Run(s, a), b)
    decreases |b|
  {
    if b == [] {
      assert a + b == a;
    } else {
      assert (a + b)[..|a + b| - 1] == a + b[..|b| - 1];
      RunAppend(s, a, b[..|b| - 1]);
    }
  }

  lemma RunStep(s: State, ops: seq<Op>, op: Op)
    requires Bounded(s)
    ensures Run(s, ops + [op]) == Step(Run(s, ops), op)
  {
    assert (ops + [op])[..|ops|] == ops;
  }

  /**
  In every run: take a snapshot, do anything that keeps it, revert to it. The
  queue is back to what it was; if the run is disciplined, so is the cache.
  */
  lemma RevertRestores(before: seq<Op>, between: seq<Op>)
    requires var s := Run(INITIAL, before); Keeps(|s.shots|, between)
    ensures var s := Run(INITIAL, before);
            var all := before + [SnapshotOp] + between + [RevertOp(|s.shots|)];
            var to := Run(INITIAL, all);
            && to.queue == s.queue
            && (Disciplined(INITIAL, all) ==> to.seen == s.seen && Replay(to.seen) == Replay(s.queue))
  {
    hide Run, Disciplined, Replay;
    var s := Run(INITIAL, before);
    var n := |s.shots|;
    var most := before + [SnapshotOp] + between;
    var all := most + [RevertOp(n)];
    var shot := Step(s, SnapshotOp);
    RunStep(INITIAL, before, SnapshotOp);
    ShotStays(shot, n, between);
    RunAppend(INITIAL, before + [SnapshotOp], between);
    RunStep(INITIAL, most, RevertOp(n));
    assert s.queue == s.queue[..|s.queue|];
    if Disciplined(INITIAL, all) {
      CacheIsReplay(all);
      assert before + ([SnapshotOp] + between + [RevertOp(n)]) == all;
      DisciplinedBefore(before, [SnapshotOp] + between + [RevertOp(n)]);
      CacheIsReplay(before);
    }
  }

  lemma {:induction false} DisciplinedBefore(a: seq<Op>, b: seq<Op>)
    requires Disciplined(INITIAL, a + b)
    ensures Disciplined(INITIAL, a)
    decreases |b|
  {
    if b == [] {
      assert a + b == a;
    } else {
      assert (a + b)[..|a + b| - 1] == a + b[..|b| - 1];
      DisciplinedBefore(a, b[..|b| - 1]);
    }
  }

  // ---- when a revert to a touched snapshot goes wrong

  /** The last write to a cache key, if any. */
  function LastToKey(ws: seq<Write>, k: Bytes): Option<Write> {
    if ws == [] then None
    else if ws[|ws| - 1].CacheKey() == k then Some(ws[|ws| - 1])
    else LastToKey(ws[..|ws| - 1], k)
  }

  lemma {:induction false} ReadAfter(p: seq<Write>, ws: seq<Write>, k: Bytes)
    ensures Read(Replay(p + ws), k) ==
            if LastToKey(ws, k).None? then Read(Replay(p), k) else AnswerOf(LastToKey(ws, k))
    ensures LastToKey(ws, k).Some? <==> exists w :: w in ws && w.CacheKey() == k
    decreases |ws|
  {
    if ws == [] {
      assert p + ws == p;
    } else {
      var most, w := ws[..|ws| - 1], ws[|ws| - 1];
      assert p + ws == (p + most) + [w] && ws == most + [w];
      ReplayAppend(p + most, w);
      ReadAfter(p, most, k);
    }
  }

  lemma {:induction false} NoTombstoneIsLive(ws: seq<Write>)
    ensures Replay(ws).live.Keys !! Replay(ws).deleted
  {
    if ws != [] {
      NoTombstoneIsLive(ws[..|ws| - 1]);
    }
  }

  lemma SameReads(c: Cache, d: Cache)
    requires c.live.Keys !! c.deleted && d.live.Keys !! d.deleted
    requires forall k :: Read(c, k) == Read(d, k)
    ensures c == d
  {
    assert forall k :: k in c.live <==> Read(c, k).Found?;
    assert forall k :: k in d.live <==> Read(d, k).Found?;
    assert forall k :: k in c.deleted <==> Read(c, k).AlreadyDeleted?;
    assert forall k :: k in d.deleted <==> Read(d, k).AlreadyDeleted?;
    assert forall k :: k in c.live && k in d.live ==> Read(c, k).value == Read(d, k).value;
    assert c.live == d.live && c.deleted == d.deleted;
  }

  /** Every record written in `ws` was last given back what it had after `p`. */
  ghost predicate GivenBack(p: seq<Write>, ws: seq<Write>) {
    forall w :: w in ws ==> AnswerOf(LastToKey(ws, w.CacheKey())) == Read(Replay(p), w.CacheKey())
  }

  lemma SameAfterIff(p: seq<Write>, ws: seq<Write>)
    ensures Replay(p + ws) == Replay(p) <==> GivenBack(p, ws)
  {
    hide Replay, LastToKey, Read;
    forall w | w in ws
      ensures Read(Replay(p + ws), w.CacheKey()) == AnswerOf(LastToKey(ws, w.CacheKey()))
    {
      ReadAfter(p, ws, w.CacheKey());
    }
    NoTombstoneIsLive(p);
    NoTombstoneIsLive(p + ws);
    if GivenBack(p, ws) {
      forall k ensures Read(Replay(p + ws), k) == Read(Replay(p), k) { ReadAfter(p, ws, k); }
      SameReads(Replay(p + ws), Replay(p));
    }
  }

  /** The cache is what the queue comes to. */
  ghost predicate Right(s: State) {
    Replay(s.seen) == Replay(s.queue)
  }

  /** Every record written into the snapshot's cache since was last given back what it had at the snapshot. */
  ghost predicate ShotGivenBack(shot: Shot) {
    shot.base <= |shot.seen| && GivenBack(shot.seen[..shot.base], shot.seen[shot.base..])
  }

  /** A step goes wrong only if it reverts to a snapshot whose writes were not given back. */
  ghost predicate Safe(s: State, op: Op) {
    op.RevertOp? && 0 <= op.shot < |s.shots| ==> ShotGivenBack(s.shots[op.shot])
  }

  /** The cache is right, and so was every snapshot's when it was taken. */
  ghost predicate Sound(s: State)
    requires Bounded(s)
  {
    Right(s) && forall i :: 0 <= i < |s.shots| ==> SoundShot(s, i)
  }

  ghost predicate SoundShot(s: State, i: nat)
    requires Bounded(s) && i < |s.shots|
  {
    && Replay(s.shots[i].seen[..s.shots[i].base]) == Replay(s.queue[..s.shots[i].size])
    && (i !in s.touched ==> |s.shots[i].seen| == s.shots[i].base)
  }

  /** A snapshot that was not written to has nothing to be given back. */
  lemma UntouchedGivenBack(s: State, i: nat)
    requires Bounded(s) && i < |s.shots| && SoundShot(s, i) && i !in s.touched
    ensures ShotGivenBack(s.shots[i])
  {
  }

  /** From a sound state, a revert leaves the right cache if and only if the snapshot's writes were given back. */
  lemma RevertRightIff(s: State, n: nat)
    requires Bounded(s) && Sound(s) && n < |s.shots|
    ensures Right(Step(s, RevertOp(n))) <==> ShotGivenBack(s.shots[n])
  {
    hide Replay, GivenBack;
    var shot := s.shots[n];
    assert SoundShot(s, n);
    assert shot.seen == shot.seen[..shot.base] + shot.seen[shot.base..];
    SameAfterIff(shot.seen[..shot.base], shot.seen[shot.base..]);
  }

  lemma StepRightIff(s: State, op: Op)
    requires Bounded(s) && Sound(s)
    ensures Right(Step(s, op)) <==> Safe(s, op)
  {
    hide Replay, GivenBack;
    match op
    case WriteOp(w) =>
      ReplayAppend(s.seen, w);
      ReplayAppend(s.queue, w);
    case RevertOp(n) =>
      if 0 <= n < |s.shots| { RevertRightIff(s, n); }
    case SnapshotOp =>
    case ClearOp =>
  }

  lemma StepSound(s: State, op: Op)
    requires Bounded(s) && Sound(s) && Right(Step(s, op))
    ensures Bounded(Step(s, op)) && Sound(Step(s, op))
  {
    hide Replay;
    StepBounded(s, op);
    var to := Step(s, op);
    forall i | 0 <= i < |to.shots| ensures SoundShot(to, i) {
      ShotStaysSound(s, op, i);
    }
  }

  lemma ShotStaysSound(s: State, op: Op, i: nat)
    requires Bounded(s) && Sound(s) && Bounded(Step(s, op)) && i < |Step(s, op).shots|
    ensures SoundShot(Step(s, op), i)
  {
    hide Replay;
    var to := Step(s, op);
    if i < |s.shots| {
      assert SoundShot(s, i);
      if op.RevertOp? && 0 <= op.shot < |s.shots| {
        assert s.shots[i].size <= s.shots[op.shot].size;
      }
      assert to.queue[..s.shots[i].size] == s.queue[..s.shots[i].size];
      assert to.shots[i].seen[..s.shots[i].base] == s.shots[i].seen[..s.shots[i].base];
    } else {
      assert s.queue[..|s.queue|] == s.queue && s.seen[..|s.seen|] == s.seen;
    }
  }

  /** The cache is right at every point of a run. */
  ghost predicate AlwaysRight(ops: seq<Op>)
    decreases |ops|
  {
    Right(Run(INITIAL, ops)) && (ops == [] || AlwaysRight(ops[..|ops| - 1]))
  }

  /** Every revert of a run is to a snapshot whose writes were given back. */
  ghost predicate AlwaysSafe(ops: seq<Op>)
    decreases |ops|
  {
    ops == [] || (AlwaysSafe(ops[..|ops| - 1]) && Safe(Run(INITIAL, ops[..|ops| - 1]), ops[|ops| - 1]))
  }

  /**
  In every run the cache is right all along if and only if every revert is to a snapshot whose writes were given
  back.
  */
  lemma {:induction false} AlwaysRightIff(ops: seq<Op>)
    ensures AlwaysRight(ops) <==> AlwaysSafe(ops)
    ensures AlwaysRight(ops) ==> Sound(Run(INITIAL, ops))
    decreases |ops|
  {
    hide Safe, Sound, Right, Step;
    if ops == [] {
      InitiallySound();
    } else {
      var most, op := ops[..|ops| - 1], ops[|ops| - 1];
      AlwaysRightIff(most);
      if AlwaysRight(most) {
        StepRightIff(Run(INITIAL, most), op);
        if AlwaysRight(ops) { StepSound(Run(INITIAL, most), op); }
      }
    }
  }

  lemma InitiallySound()
    ensures Sound(INITIAL) && Right(INITIAL)
  {
  }

  /** A run that goes wrong: snapshot, revert, write, revert again. The write is still in the cache. */
  lemma SecondRevertKeepsWrite(w: Write)
    requires w.PutWrite?
    ensures var ops := [SnapshotOp, RevertOp(0), WriteOp(w), RevertOp(0)];
            && !Disciplined(INITIAL, ops)
            && Run(INITIAL, ops).queue == []
            && Read(Replay(Run(INITIAL, ops).seen), w.CacheKey()) == Found(w.value)
  {
    var ops := [SnapshotOp, RevertOp(0), WriteOp(w), RevertOp(0)];
    var most := ops[..3];
    assert most == [SnapshotOp, RevertOp(0)] + [WriteOp(w)] && ops == most + [RevertOp(0)];
    RevertedOnce();
    RunStep(INITIAL, [SnapshotOp, RevertOp(0)], WriteOp(w));
    RunStep(INITIAL, most, RevertOp(0));
    assert [] + [w] == [w] && [Shot(0, 0, [])][0 := Shot(0, 0, [w])] == [Shot(0, 0, [w])];
    assert Run(INITIAL, most) == State([w], [w], [Shot(0, 0, [w])], Some(0), {0}) by { hide Run; }
    assert Run(INITIAL, ops) == State([], [w], [Shot(0, 0, [w])], Some(0), {0}) by { hide Run; }
    ReplayAppend([], w);
  }

  lemma RevertedOnce()
    ensures Run(INITIAL, [SnapshotOp, RevertOp(0)]) == State([], [], [Shot(0, 0, [])], Some(0), {})
  {
    assert [SnapshotOp] == [] + [SnapshotOp] && [SnapshotOp, RevertOp(0)] == [SnapshotOp] + [RevertOp(0)];
    RunStep(INITIAL, [], SnapshotOp);
    RunStep(INITIAL, [SnapshotOp], RevertOp(0));
    hide Run;
    var shots := [Shot(0, 0, [])];
    assert [] + shots == shots && shots[..1] == shots;
    var s := State([], [], shots, None, {});
    assert Step(INITIAL, SnapshotOp) == s;
    assert Reverted(s, 0) == State([], [], shots, Some(0), {});
  }
}
