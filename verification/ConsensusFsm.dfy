/**
The consensus state machine (consensus/consensusfsm/fsm.go): its transition
table, and one event handled at a time from the events that are pending.

Pending events have no order: delays and the queue are left to the environment.
What the context answers while an event is handled is a parameter.
*/
module ConsensusFsmSpec {
  datatype State =
    | PrepareState
    | AcceptBlockProposal
    | AcceptProposalEndorsement
    | AcceptLockEndorsement
    | AcceptPreCommitEndorsement

  datatype Kind =
    | Calibrate
    | Prepare
    | ReceiveBlock
    | FailedToReceiveBlock
    | ReceiveProposalEndorsement
    | StopReceivingProposalEndorsement
    | ReceiveLockEndorsement
    | StopReceivingLockEndorsement
    | ReceivePreCommitEndorsement
    | BroadcastPreCommitEndorsement

  datatype Data = Nothing | Height(height: nat) | Message(id: nat)

  /** An event carries the round the context made it in. */
  datatype Event = Event(kind: Kind, data: Data, round: nat)

  datatype Preparation =
    Preparation(failed: bool, active: bool, isProposer: bool, proposal: Data, isDelegate: bool, locked: bool)

  datatype Endorsement = Failed | NotYet | Endorsed(message: Data)
  datatype Commitment = CommitFailed | NotCommitted | Committed

  /**
  What the context says while an event is handled. `round` is its round
  once the event is handled; `made` has the rounds it gives to the kinds of
  events it makes, and lacks the kinds it refuses to make.
  */
  datatype Answers = Answers(
    stale: bool,
    future: bool,
    staleUnmatched: bool,
    height: nat,
    round: nat,
    made: map<Kind, nat>,
    preparation: Preparation,
    endorsement: Endorsement,
    commitment: Commitment)

  /** The calls to the context that matter for committing a block. */
  datatype Call = PrepareSucceeded | PreCommitEndorsed | CommitCalled(done: bool)

  datatype Machine = Machine(state: State, pending: multiset<Event>, round: nat, calls: seq<Call>)

  // ---- the transition table

  function Destinations(s: State, k: Kind): set<State> {
    match (s, k)
    case (PrepareState, Prepare) => {PrepareState, AcceptBlockProposal}
    case (AcceptBlockProposal, ReceiveBlock) => {AcceptBlockProposal, AcceptProposalEndorsement}
    case (AcceptBlockProposal, FailedToReceiveBlock) => {AcceptProposalEndorsement}
    case (AcceptProposalEndorsement, ReceiveProposalEndorsement) => {AcceptProposalEndorsement, AcceptLockEndorsement}
    case (AcceptProposalEndorsement, ReceivePreCommitEndorsement) => {AcceptProposalEndorsement, AcceptLockEndorsement}
    case (AcceptProposalEndorsement, StopReceivingProposalEndorsement) => {AcceptLockEndorsement}
    case (AcceptLockEndorsement, ReceiveLockEndorsement) => {AcceptLockEndorsement, AcceptPreCommitEndorsement}
    case (AcceptLockEndorsement, ReceivePreCommitEndorsement) => {AcceptLockEndorsement, AcceptPreCommitEndorsement}
    case (AcceptPreCommitEndorsement, BroadcastPreCommitEndorsement) => {AcceptPreCommitEndorsement}
    case (AcceptLockEndorsement, StopReceivingLockEndorsement) => {PrepareState}
    case (AcceptPreCommitEndorsement, ReceivePreCommitEndorsement) => {AcceptPreCommitEndorsement, PrepareState}
    case (_, Calibrate) => if s == PrepareState then {} else {PrepareState, s}
    case _ => {}
  }

  // ---- one event handled

  /** An event of a kind, if the context makes it. */
  function Made(a: Answers, k: Kind, d: Data): multiset<Event> {
    if k in a.made then multiset{Event(k, d, a.made[k])} else multiset{}
  }

  function Plus(m: Machine, events: multiset<Event>, s: State): Machine {
    m.(pending := m.pending + events, state := s)
  }

  function AfterPrepare(m: Machine, a: Answers): Machine {
    var p := a.preparation;
    if p.failed || !p.active || !p.isDelegate then
      Plus(m, Made(a, Prepare, Nothing), PrepareState)
    else
      var timers := Made(a, FailedToReceiveBlock, Nothing) + Made(a, StopReceivingProposalEndorsement, Nothing)
                  + Made(a, StopReceivingLockEndorsement, Nothing);
      var block := if p.isProposer || p.locked then Made(a, ReceiveBlock, p.proposal) else multiset{};
      Plus(m, timers + block, AcceptBlockProposal).(calls := m.calls + [PrepareSucceeded])
  }

  function AfterLock(m: Machine, a: Answers): Machine {
    match a.endorsement
    case Endorsed(en) =>
      Plus(m, Made(a, ReceivePreCommitEndorsement, en) + Made(a, BroadcastPreCommitEndorsement, en),
           AcceptPreCommitEndorsement)
      .(calls := m.calls + [PreCommitEndorsed])
    case _ => m
  }

  function AfterCommit(m: Machine, a: Answers): Machine {
    var called := m.(calls := m.calls + [CommitCalled(a.commitment.Committed?)]);
    if a.commitment.Committed? then Plus(called, Made(a, Prepare, Nothing), PrepareState) else called
  }

  function AfterProposal(a: Answers): multiset<Event> {
    match a.endorsement
    case Endorsed(en) => Made(a, ReceiveProposalEndorsement, en)
    case NotYet => Made(a, ReceiveProposalEndorsement, Nothing)
    case Failed => multiset{}
  }

  /** What the handler of a transition does to the machine, the event being off the queue. */
  function Reaction(m: Machine, e: Event, a: Answers): Machine
    requires Destinations(m.state, e.kind) != {}
  {
    match e.kind
    case Calibrate =>
      if e.data.Height? && a.height <= e.data.height then Plus(m, Made(a, Prepare, Nothing), PrepareState) else m
    case Prepare => AfterPrepare(m, a)
    case ReceiveBlock =>
      if a.endorsement.Failed? then m else Plus(m, AfterProposal(a), AcceptProposalEndorsement)
    case FailedToReceiveBlock => Plus(m, AfterProposal(a), AcceptProposalEndorsement)
    case StopReceivingProposalEndorsement => m.(state := AcceptLockEndorsement)
    case StopReceivingLockEndorsement => Plus(m, Made(a, Prepare, Nothing), PrepareState)
    case BroadcastPreCommitEndorsement => m.(pending := m.pending + multiset{e})
    case _ =>
      if m.state == AcceptProposalEndorsement then
        if a.endorsement.Endorsed? then
          Plus(m, Made(a, ReceiveLockEndorsement, a.endorsement.message), AcceptLockEndorsement)
        else m
      else if m.state == AcceptLockEndorsement then AfterLock(m, a)
      else AfterCommit(m, a)
  }

  /** Taking an event off the queue: dropped, put back, or handled. */
  function Handled(m: Machine, e: Event, a: Answers): Machine
    requires e in m.pending
  {
    var rest := m.(pending := m.pending - multiset{e});
    if a.stale then rest
    else if a.future then m
    else if Destinations(m.state, e.kind) == {} then if a.staleUnmatched then rest else m
    else Reaction(rest, e, a).(round := a.round)
  }

  /** A handler never goes where the table does not let it. */
  lemma StaysInTable(m: Machine, e: Event, a: Answers)
    requires e in m.pending
    ensures Handled(m, e, a).state in Destinations(m.state, e.kind) + {m.state}
  {
  }

  // ---- what the context's answers bring about

  /** The event is taken up in a state, not dropped and not put off. */
  predicate Acts(m: Machine, a: Answers, s: State) {
    m.state == s && !a.stale && !a.future
  }

  /** The context is ready for a round in which it has a say. */
  predicate Prepared(m: Machine, e: Event, a: Answers) {
    && Acts(m, a, PrepareState) && e.kind == Prepare
    && !a.preparation.failed && a.preparation.active && a.preparation.isDelegate
  }

  /** The context endorsed the block it was shown, or its time is up. */
  predicate Proposed(m: Machine, e: Event, a: Answers) {
    && Acts(m, a, AcceptBlockProposal)
    && (e.kind == FailedToReceiveBlock || (e.kind == ReceiveBlock && a.endorsement != Failed))
  }

  /** An endorsement came and the context answered it with one of its own: a lock, ... */
  predicate Locked(m: Machine, e: Event, a: Answers) {
    && Acts(m, a, AcceptProposalEndorsement) && a.endorsement.Endorsed?
    && e.kind in {ReceiveProposalEndorsement, ReceivePreCommitEndorsement}
  }

  /** ... or a pre-commit. */
  predicate PreCommitted(m: Machine, e: Event, a: Answers) {
    && Acts(m, a, AcceptLockEndorsement) && a.endorsement.Endorsed?
    && e.kind in {ReceiveLockEndorsement, ReceivePreCommitEndorsement}
  }

  /** The context was asked to commit the block. */
  predicate AskedToCommit(m: Machine, e: Event, a: Answers) {
    Acts(m, a, AcceptPreCommitEndorsement) && e.kind == ReceivePreCommitEndorsement
  }

  predicate Calibrated(m: Machine, e: Event, a: Answers) {
    && m.state != PrepareState && Acts(m, a, m.state)
    && e.kind == Calibrate && e.data.Height? && a.height <= e.data.height
  }

  /** The machine is preparing again, or still: a prepare that came to nothing counts too. */
  predicate Restarts(m: Machine, e: Event, a: Answers) {
    || Calibrated(m, e, a)
    || (Acts(m, a, PrepareState) && e.kind == Prepare && !Prepared(m, e, a))
    || (Acts(m, a, AcceptLockEndorsement) && e.kind == StopReceivingLockEndorsement)
    || (AskedToCommit(m, e, a) && a.commitment == Committed)
  }

  /** The calls that are recorded, told from the answers: an endorsement only where the context gave one. */
  lemma StepCalls(m: Machine, e: Event, a: Answers)
    requires e in m.pending
    ensures Handled(m, e, a).calls == m.calls +
            if Prepared(m, e, a) then [PrepareSucceeded]
            else if PreCommitted(m, e, a) then [PreCommitEndorsed]
            else if AskedToCommit(m, e, a) then [CommitCalled(a.commitment == Committed)]
            else []
  {
  }

  predicate LockTimeUp(m: Machine, e: Event, a: Answers) {
    Acts(m, a, AcceptProposalEndorsement) && e.kind == StopReceivingProposalEndorsement
  }

  /** Where a step leads, told from the answers; no two of the conditions hold together. */
  function Leads(m: Machine, e: Event, a: Answers): State {
    if Prepared(m, e, a) then AcceptBlockProposal
    else if Proposed(m, e, a) then AcceptProposalEndorsement
    else if Locked(m, e, a) || LockTimeUp(m, e, a) then AcceptLockEndorsement
    else if PreCommitted(m, e, a) then AcceptPreCommitEndorsement
    else if Restarts(m, e, a) then PrepareState
    else m.state
  }

  lemma StepLeads(m: Machine, e: Event, a: Answers)
    requires e in m.pending
    ensures Handled(m, e, a).state == Leads(m, e, a)
  {
    hide Leads, Reaction;
    if a.stale || a.future || Destinations(m.state, e.kind) == {} {
      LeadsNowhere(m, e, a);
    } else {
      var rest := m.(pending := m.pending - multiset{e});
      LeadsAlike(rest, m, e, a);
      match m.state
      case PrepareState => LeadsFromPrepare(rest, e, a);
      case AcceptBlockProposal => LeadsFromBlock(rest, e, a);
      case AcceptProposalEndorsement => LeadsFromProposal(rest, e, a);
      case AcceptLockEndorsement => LeadsFromLock(rest, e, a);
      case AcceptPreCommitEndorsement => LeadsFromPreCommit(rest, e, a);
    }
  }

  lemma LeadsNowhere(m: Machine, e: Event, a: Answers)
    requires a.stale || a.future || Destinations(m.state, e.kind) == {}
    ensures Leads(m, e, a) == m.state
  {
  }

  lemma LeadsAlike(m: Machine, n: Machine, e: Event, a: Answers)
    requires m.state == n.state
    ensures Leads(m, e, a) == Leads(n, e, a)
  {
  }

  lemma LeadsFromPrepare(m: Machine, e: Event, a: Answers)
    requires Acts(m, a, PrepareState) && Destinations(m.state, e.kind) != {}
    ensures Reaction(m, e, a).state == Leads(m, e, a)
  {
    hide Made;
  }

  lemma LeadsFromBlock(m: Machine, e: Event, a: Answers)
    requires Acts(m, a, AcceptBlockProposal) && Destinations(m.state, e.kind) != {}
    ensures Reaction(m, e, a).state == Leads(m, e, a)
  {
    hide Made;
  }

  lemma LeadsFromProposal(m: Machine, e: Event, a: Answers)
    requires Acts(m, a, AcceptProposalEndorsement) && Destinations(m.state, e.kind) != {}
    ensures Reaction(m, e, a).state == Leads(m, e, a)
  {
    hide Made;
  }

  lemma LeadsFromLock(m: Machine, e: Event, a: Answers)
    requires Acts(m, a, AcceptLockEndorsement) && Destinations(m.state, e.kind) != {}
    ensures Reaction(m, e, a).state == Leads(m, e, a)
  {
    hide Made;
  }

  lemma LeadsFromPreCommit(m: Machine, e: Event, a: Answers)
    requires Acts(m, a, AcceptPreCommitEndorsement) && Destinations(m.state, e.kind) != {}
    ensures Reaction(m, e, a).state == Leads(m, e, a)
  {
    hide Made;
  }

  /** Which events a step queues, each once, told from the answers and kind by kind. */
  predicate Queues(m: Machine, e: Event, a: Answers, x: Event) {
    || (x == e && x.kind == BroadcastPreCommitEndorsement && Acts(m, a, AcceptPreCommitEndorsement))
    || (x.kind in a.made && x.round == a.made[x.kind] && match x.kind
          case Prepare => Restarts(m, e, a) && x.data == Nothing
          case FailedToReceiveBlock => Prepared(m, e, a) && x.data == Nothing
          case StopReceivingProposalEndorsement => Prepared(m, e, a) && x.data == Nothing
          case StopReceivingLockEndorsement => Prepared(m, e, a) && x.data == Nothing
          case ReceiveBlock =>
            Prepared(m, e, a) && (a.preparation.isProposer || a.preparation.locked) && x.data == a.preparation.proposal
          case ReceiveProposalEndorsement =>
            && Proposed(m, e, a) && a.endorsement != Failed
            && x.data == if a.endorsement.Endorsed? then a.endorsement.message else Nothing
          case ReceiveLockEndorsement => Locked(m, e, a) && x.data == a.endorsement.message
          case ReceivePreCommitEndorsement => PreCommitted(m, e, a) && x.data == a.endorsement.message
          case BroadcastPreCommitEndorsement => PreCommitted(m, e, a) && x.data == a.endorsement.message
          case Calibrate => false)
  }

  /** The event is put back: it is from the future, or fits no state it could be in and is not stale. */
  predicate PutBack(m: Machine, e: Event, a: Answers) {
    !a.stale && (a.future || (Destinations(m.state, e.kind) == {} && !a.staleUnmatched))
  }

  lemma StepQueues(m: Machine, e: Event, a: Answers, x: Event)
    requires e in m.pending
    ensures Handled(m, e, a).pending[x] ==
            m.pending[x] - (if x == e && !PutBack(m, e, a) then 1 else 0) + (if Queues(m, e, a, x) then 1 else 0)
  {
    hide Reaction, Queues;
    if a.stale || a.future || Destinations(m.state, e.kind) == {} {
      NoneQueued(m, e, a, x);
    } else {
      var rest := m.(pending := m.pending - multiset{e});
      ReactionQueues(rest, e, a, x);
      SameQueues(rest, m, e, a, x);
    }
  }

  lemma NoneQueued(m: Machine, e: Event, a: Answers, x: Event)
    requires a.stale || a.future || Destinations(m.state, e.kind) == {}
    ensures !Queues(m, e, a, x)
  {
  }

  lemma SameQueues(m: Machine, n: Machine, e: Event, a: Answers, x: Event)
    requires m.state == n.state
    ensures Queues(m, e, a, x) <==> Queues(n, e, a, x)
  {
  }

  lemma MadeOnce(a: Answers, k: Kind, d: Data, x: Event)
    ensures Made(a, k, d)[x] == if k in a.made && x == Event(k, d, a.made[k]) then 1 else 0
  {
  }

  lemma ReactionQueues(m: Machine, e: Event, a: Answers, x: Event)
    requires Destinations(m.state, e.kind) != {} && !a.stale && !a.future
    ensures Reaction(m, e, a).pending[x] == m.pending[x] + if Queues(m, e, a, x) then 1 else 0
  {
    if e.kind == Calibrate {
      CalibrateQueues(m, e, a, x);
    } else {
      match m.state
      case PrepareState => PrepareQueues(m, e, a, x);
      case AcceptBlockProposal => ProposalQueues(m, e, a, x);
      case AcceptProposalEndorsement => LockQueues(m, e, a, x);
      case AcceptLockEndorsement => PreCommitQueues(m, e, a, x);
      case AcceptPreCommitEndorsement => CommitQueues(m, e, a, x);
    }
  }

  lemma CalibrateQueues(m: Machine, e: Event, a: Answers, x: Event)
    requires Acts(m, a, m.state) && m.state != PrepareState && e.kind == Calibrate
    ensures Reaction(m, e, a).pending[x] == m.pending[x] + if Queues(m, e, a, x) then 1 else 0
  {
    hide Made;
    MadeOnce(a, Prepare, Nothing, x);
  }

  lemma LockQueues(m: Machine, e: Event, a: Answers, x: Event)
    requires Acts(m, a, AcceptProposalEndorsement) && Destinations(m.state, e.kind) != {} && e.kind != Calibrate
    ensures Reaction(m, e, a).pending[x] == m.pending[x] + if Queues(m, e, a, x) then 1 else 0
  {
    hide Made;
    if a.endorsement.Endorsed? { MadeOnce(a, ReceiveLockEndorsement, a.endorsement.message, x); }
  }

  lemma PreCommitQueues(m: Machine, e: Event, a: Answers, x: Event)
    requires Acts(m, a, AcceptLockEndorsement) && Destinations(m.state, e.kind) != {} && e.kind != Calibrate
    ensures Reaction(m, e, a).pending[x] == m.pending[x] + if Queues(m, e, a, x) then 1 else 0
  {
    hide Made;
    MadeOnce(a, Prepare, Nothing, x);
    if a.endorsement.Endorsed? {
      MadeOnce(a, ReceivePreCommitEndorsement, a.endorsement.message, x);
      MadeOnce(a, BroadcastPreCommitEndorsement, a.endorsement.message, x);
    }
  }

  lemma CommitQueues(m: Machine, e: Event, a: Answers, x: Event)
    requires Acts(m, a, AcceptPreCommitEndorsement) && Destinations(m.state, e.kind) != {} && e.kind != Calibrate
    ensures Reaction(m, e, a).pending[x] == m.pending[x] + if Queues(m, e, a, x) then 1 else 0
  {
    hide Made;
    MadeOnce(a, Prepare, Nothing, x);
  }

  lemma PrepareQueues(m: Machine, e: Event, a: Answers, x: Event)
    requires Acts(m, a, PrepareState) && e.kind == Prepare
    ensures Reaction(m, e, a).pending[x] == m.pending[x] + if Queues(m, e, a, x) then 1 else 0
  {
    hide Made;
    MadeOnce(a, Prepare, Nothing, x);
    MadeOnce(a, FailedToReceiveBlock, Nothing, x);
    MadeOnce(a, StopReceivingProposalEndorsement, Nothing, x);
    MadeOnce(a, StopReceivingLockEndorsement, Nothing, x);
    MadeOnce(a, ReceiveBlock, a.preparation.proposal, x);
  }

  lemma ProposalQueues(m: Machine, e: Event, a: Answers, x: Event)
    requires Acts(m, a, AcceptBlockProposal) && e.kind in {ReceiveBlock, FailedToReceiveBlock}
    ensures Reaction(m, e, a).pending[x] == m.pending[x] + if Queues(m, e, a, x) then 1 else 0
  {
    hide Made;
    var d := if a.endorsement.Endorsed? then a.endorsement.message else Nothing;
    MadeOnce(a, ReceiveProposalEndorsement, d, x);
  }

  // ---- safety of commits

  datatype Phase = Idle | Open | Agreed

  /** How far a round has come, as the calls tell. */
  function PhaseOf(calls: seq<Call>): Phase {
    if calls == [] then Idle
    else match calls[|calls| - 1]
      case PrepareSucceeded => Open
      case PreCommitEndorsed => Agreed
      case CommitCalled(done) => if done then Idle else PhaseOf(calls[..|calls| - 1])
  }

  /** One pre-commit endorsement a round, and every commit after it and before another commit succeeds. */
  ghost predicate Legal(calls: seq<Call>) {
    forall i :: 0 <= i < |calls| ==> LegalNext(PhaseOf(calls[..i]), calls[i])
  }

  predicate LegalNext(p: Phase, c: Call) {
    match c
    case PrepareSucceeded => true
    case PreCommitEndorsed => p == Open
    case CommitCalled(_) => p == Agreed
  }

  lemma LegalMore(calls: seq<Call>, c: Call)
    requires Legal(calls) && LegalNext(PhaseOf(calls), c)
    ensures Legal(calls + [c])
    ensures PhaseOf(calls + [c]) == match c
      case PrepareSucceeded => Open
      case PreCommitEndorsed => Agreed
      case CommitCalled(done) => if done then Idle else PhaseOf(calls)
  {
    var all := calls + [c];
    assert all[..|calls|] == calls;
    forall i | 0 <= i < |all| ensures LegalNext(PhaseOf(all[..i]), all[i]) {
      if i < |calls| { assert all[..i] == calls[..i]; }
    }
  }

  /** A pre-commit endorsement with no successful prepare and no successful commit since. */
  ghost predicate EndorsedSince(calls: seq<Call>, j: nat) {
    && j < |calls| && calls[j] == PreCommitEndorsed
    && forall k :: j < k < |calls| ==> calls[k] == CommitCalled(false)
  }

  lemma LegalPrefix(calls: seq<Call>, n: nat)
    requires Legal(calls) && n <= |calls|
    ensures Legal(calls[..n])
  {
    forall i | 0 <= i < n ensures LegalNext(PhaseOf(calls[..n][..i]), calls[..n][i]) {
      assert calls[..n][..i] == calls[..i];
    }
  }

  lemma {:induction false} AgreedMeans(calls: seq<Call>) returns (j: nat)
    requires Legal(calls) && PhaseOf(calls) == Agreed
    ensures EndorsedSince(calls, j)
  {
    var most, last := calls[..|calls| - 1], calls[|calls| - 1];
    if last == PreCommitEndorsed {
      j := |calls| - 1;
    } else {
      LegalPrefix(calls, |calls| - 1);
      j := AgreedMeans(most);
      hide Legal, PhaseOf;
      assert calls == most + [last];
    }
  }

  /** Every call of Commit follows a pre-commit endorsement of the same round. */
  lemma CommitIsEndorsed(calls: seq<Call>, i: nat) returns (j: nat)
    requires Legal(calls) && i < |calls| && calls[i].CommitCalled?
    ensures j < i && EndorsedSince(calls[..i], j)
  {
    LegalPrefix(calls, i);
    j := AgreedMeans(calls[..i]);
  }

  // ---- liveness of the queue

  /** The events that drive the machine when nothing comes in. */
  predicate Drives(k: Kind) {
    k in {Prepare, FailedToReceiveBlock, StopReceivingProposalEndorsement, StopReceivingLockEndorsement,
          BroadcastPreCommitEndorsement}
  }

  /** Which of them a state still needs. */
  function Needs(s: State): set<Kind> {
    match s
    case PrepareState => {Prepare}
    case AcceptBlockProposal => {FailedToReceiveBlock, StopReceivingProposalEndorsement, StopReceivingLockEndorsement}
    case AcceptProposalEndorsement => {StopReceivingProposalEndorsement, StopReceivingLockEndorsement}
    case AcceptLockEndorsement => {StopReceivingLockEndorsement}
    case AcceptPreCommitEndorsement => {BroadcastPreCommitEndorsement}
  }

  ghost predicate Waiting(pending: multiset<Event>, round: nat, k: Kind) {
    exists e :: e in pending && e.kind == k && e.round == round
  }

  ghost predicate Driven(m: Machine) {
    forall k :: k in Needs(m.state) ==> Waiting(m.pending, m.round, k)
  }

  ghost predicate InPhase(m: Machine) {
    && Legal(m.calls)
    && (m.state == AcceptPreCommitEndorsement ==> PhaseOf(m.calls) == Agreed)
    && (m.state in {AcceptBlockProposal, AcceptProposalEndorsement, AcceptLockEndorsement} ==> PhaseOf(m.calls) == Open)
  }

  /**
  The context drops no driving event of the current round, makes those it is asked for, and changes its round
  only to prepare.
  */
  ghost predicate Fair(m: Machine, e: Event, a: Answers) {
    && (Drives(e.kind) && e.round == m.round ==> !a.stale && !a.staleUnmatched)
    && (forall k :: Drives(k) ==> k in a.made && a.made[k] == a.round)
    && (a.round == m.round || (m.state == PrepareState && e.kind == Prepare))
  }

  lemma AgreesOnCommits(m: Machine, e: Event, a: Answers)
    requires InPhase(m) && e in m.pending
    ensures InPhase(Handled(m, e, a))
  {
    hide Legal, PhaseOf;
    LegalMore(m.calls, PrepareSucceeded);
    if PhaseOf(m.calls) == Open { LegalMore(m.calls, PreCommitEndorsed); }
    if PhaseOf(m.calls) == Agreed { LegalMore(m.calls, CommitCalled(a.commitment.Committed?)); }
  }

  lemma StillWaiting(pending: multiset<Event>, e: Event, after: multiset<Event>, round: nat, k: Kind)
    requires Waiting(pending, round, k) && pending - multiset{e} <= after
    requires e.kind != k || e.round != round
    ensures Waiting(after, round, k)
  {
    var w :| w in pending && w.kind == k && w.round == round;
    assert w in pending - multiset{e};
  }

  lemma OnlyAdds(m: Machine, e: Event, a: Answers)
    requires Destinations(m.state, e.kind) != {}
    ensures m.pending <= Reaction(m, e, a).pending
  {
    hide Made, Destinations;
  }

  /** A driving event is spent by being handled, but for a rebroadcast left over from another round. */
  predicate UsedUp(m: Machine, e: Event, k: Kind) {
    e.kind == k && (k == BroadcastPreCommitEndorsement ==> e.round == m.round)
  }

  /** What a state needs and the state before did not, or what was just used up, the handler makes. */
  lemma BringsNeeded(m: Machine, e: Event, a: Answers, k: Kind)
    requires Destinations(m.state, e.kind) != {} && Fair(m, e, a)
    requires k in Needs(Reaction(m, e, a).state) && (k !in Needs(m.state) || UsedUp(m, e, k))
    ensures Waiting(Reaction(m, e, a).pending, a.round, k)
  {
    assert Drives(k) && k in a.made;
    if k == Prepare {
      BringsPrepare(m, e, a);
    } else if k == BroadcastPreCommitEndorsement {
      BringsRebroadcast(m, e, a);
    } else {
      assert e.kind == Prepare;
      TimersMade(m, a, k);
    }
  }

  lemma BringsPrepare(m: Machine, e: Event, a: Answers)
    requires Destinations(m.state, e.kind) != {} && Prepare in a.made
    requires Reaction(m, e, a).state == PrepareState
    ensures Waiting(Reaction(m, e, a).pending, a.made[Prepare], Prepare)
  {
    assert Event(Prepare, Nothing, a.made[Prepare]) in Made(a, Prepare, Nothing);
    assert Reaction(m, e, a).pending == m.pending + Made(a, Prepare, Nothing);
  }

  lemma BringsRebroadcast(m: Machine, e: Event, a: Answers)
    requires Destinations(m.state, e.kind) != {} && BroadcastPreCommitEndorsement in a.made
    requires Reaction(m, e, a).state == AcceptPreCommitEndorsement
    requires m.state == AcceptPreCommitEndorsement ==>
               e.kind == BroadcastPreCommitEndorsement && e.round == a.made[e.kind]
    ensures Waiting(Reaction(m, e, a).pending, a.made[BroadcastPreCommitEndorsement], BroadcastPreCommitEndorsement)
  {
    if e.kind == BroadcastPreCommitEndorsement {
      assert e in Reaction(m, e, a).pending;
    } else {
      assert Event(BroadcastPreCommitEndorsement, a.endorsement.message, a.made[BroadcastPreCommitEndorsement])
          in AfterLock(m, a).pending;
    }
  }

  lemma TimersMade(m: Machine, a: Answers, k: Kind)
    requires k in Needs(AcceptBlockProposal) && k in a.made && AfterPrepare(m, a).state == AcceptBlockProposal
    ensures Waiting(AfterPrepare(m, a).pending, a.made[k], k)
  {
    assert Event(k, Nothing, a.made[k]) in AfterPrepare(m, a).pending;
  }

  lemma ReactsDriven(m: Machine, e: Event, a: Answers)
    requires Driven(m) && e in m.pending && Fair(m, e, a) && Destinations(m.state, e.kind) != {}
    ensures Driven(Reaction(m.(pending := m.pending - multiset{e}), e, a).(round := a.round))
  {
    hide Waiting;
    var rest := m.(pending := m.pending - multiset{e});
    var after := Reaction(rest, e, a);
    OnlyAdds(rest, e, a);
    forall k | k in Needs(after.state) ensures Waiting(after.pending, a.round, k) {
      if k !in Needs(m.state) || UsedUp(m, e, k) {
        BringsNeeded(rest, e, a, k);
      } else {
        StillWaiting(m.pending, e, after.pending, m.round, k);
      }
    }
  }

  lemma StaysDriven(m: Machine, e: Event, a: Answers)
    requires Driven(m) && e in m.pending && Fair(m, e, a)
    ensures Driven(Handled(m, e, a))
  {
    hide Waiting, Reaction;
    if a.stale || (!a.future && Destinations(m.state, e.kind) == {} && a.staleUnmatched) {
      forall k | k in Needs(m.state) ensures Waiting(m.pending - multiset{e}, m.round, k) {
        assert Drives(k);
        StillWaiting(m.pending, e, m.pending - multiset{e}, m.round, k);
      }
    } else if !a.future && Destinations(m.state, e.kind) != {} {
      ReactsDriven(m, e, a);
    }
  }

  // ---- whole runs

  /** An event taken off the queue, with the context's answers, or one that comes in. */
  datatype Move = Take(event: Event, answers: Answers) | Arrive(event: Event)

  ghost predicate CanMove(m: Machine, move: Move) {
    move.Take? ==> move.event in m.pending
  }

  ghost function Moved(m: Machine, move: Move): Machine
    requires CanMove(m, move)
  {
    match move
    case Take(e, a) => Handled(m, e, a)
    case Arrive(e) => m.(pending := m.pending + multiset{e})
  }

  ghost predicate FairMove(m: Machine, move: Move) {
    move.Take? ==> Fair(m, move.event, move.answers)
  }

  /** A run, as the machines it goes through. */
  ghost predicate IsRun(run: seq<Machine>, moves: seq<Move>) {
    && |run| == |moves| + 1
    && forall i :: 0 <= i < |moves| ==> CanMove(run[i], moves[i]) && run[i + 1] == Moved(run[i], moves[i])
  }

  ghost predicate IsFair(run: seq<Machine>, moves: seq<Move>)
    requires IsRun(run, moves)
  {
    forall i :: 0 <= i < |moves| ==> FairMove(run[i], moves[i])
  }

  /** How it starts: preparing, with the event to prepare queued. */
  ghost predicate Starts(m: Machine) {
    m.state == PrepareState && m.calls == [] && Waiting(m.pending, m.round, Prepare)
  }

  lemma MoveKeepsPhase(m: Machine, move: Move)
    requires InPhase(m) && CanMove(m, move)
    ensures InPhase(Moved(m, move))
  {
    hide Handled, Legal;
    if move.Take? { AgreesOnCommits(m, move.event, move.answers); }
  }

  lemma MoveKeepsDriven(m: Machine, move: Move)
    requires Driven(m) && CanMove(m, move) && FairMove(m, move)
    ensures Driven(Moved(m, move))
  {
    hide Waiting, Handled, Fair;
    match move
    case Take(e, a) => StaysDriven(m, e, a);
    case Arrive(e) =>
      forall k | k in Needs(m.state) ensures Waiting(m.pending + multiset{e}, m.round, k) {
        MoreWaiting(m.pending, e, m.round, k);
      }
  }

  lemma MoreWaiting(pending: multiset<Event>, e: Event, round: nat, k: Kind)
    requires Waiting(pending, round, k)
    ensures Waiting(pending + multiset{e}, round, k)
  {
    var w :| w in pending && w.kind == k && w.round == round;
    assert w in pending + multiset{e};
  }

  /** In every run, whatever the context answers, commits are endorsed. */
  lemma {:induction false} RunKeepsPhase(run: seq<Machine>, moves: seq<Move>, n: nat)
    requires IsRun(run, moves) && run[0].state == PrepareState && run[0].calls == [] && n < |run|
    ensures InPhase(run[n])
  {
    hide Moved, CanMove;
    if n > 0 {
      RunKeepsPhase(run, moves, n - 1);
      MoveKeepsPhase(run[n - 1], moves[n - 1]);
    }
  }

  /**
  In every run: when the context is asked to commit, it gave a pre-commit endorsement in an earlier move, and the
  machine has been waiting for others' ever since.
  */
  lemma {:induction false} CommitHasEndorsement(run: seq<Machine>, moves: seq<Move>, n: nat) returns (j: nat)
    requires IsRun(run, moves) && run[0].state == PrepareState && n < |run|
    requires run[n].state == AcceptPreCommitEndorsement
    ensures j < n && moves[j].Take? && PreCommitted(run[j], moves[j].event, moves[j].answers)
    ensures run[j + 1].calls == run[j].calls + [PreCommitEndorsed]
    ensures forall i :: j < i <= n ==> run[i].state == AcceptPreCommitEndorsement
  {
    hide Handled, PreCommitted, Prepared, Proposed, Locked, LockTimeUp, Restarts;
    var move := moves[n - 1];
    assert CanMove(run[n - 1], move) && run[n] == Moved(run[n - 1], move);
    if run[n - 1].state == AcceptPreCommitEndorsement {
      j := CommitHasEndorsement(run, moves, n - 1);
    } else {
      j := n - 1;
      StepLeads(run[j], move.event, move.answers);
      StepCalls(run[j], move.event, move.answers);
      NotPrepared(run[j], move.event, move.answers);
    }
  }

  lemma NotPrepared(m: Machine, e: Event, a: Answers)
    requires PreCommitted(m, e, a)
    ensures !Prepared(m, e, a)
  {
  }

  /** In every run with a fair context, each state has what drives it on pending. */
  lemma {:induction false} RunKeepsDriven(run: seq<Machine>, moves: seq<Move>, n: nat)
    requires IsRun(run, moves) && IsFair(run, moves) && Starts(run[0]) && n < |run|
    ensures Driven(run[n])
  {
    hide Waiting, Moved, CanMove, FairMove;
    if n > 0 {
      RunKeepsDriven(run, moves, n - 1);
      MoveKeepsDriven(run[n - 1], moves[n - 1]);
    }
  }

  // ---- a round ends by itself

  /** The event that moves a state on when nothing comes in. */
  function Timeout(s: State): Kind {
    match s
    case PrepareState => Prepare
    case AcceptBlockProposal => FailedToReceiveBlock
    case AcceptProposalEndorsement => StopReceivingProposalEndorsement
    case AcceptLockEndorsement => StopReceivingLockEndorsement
    case AcceptPreCommitEndorsement => BroadcastPreCommitEndorsement
  }

  function StepsLeft(s: State): nat {
    match s
    case AcceptBlockProposal => 3
    case AcceptProposalEndorsement => 2
    case AcceptLockEndorsement => 1
    case _ => 0
  }

  lemma TimeoutMovesOn(m: Machine, e: Event, a: Answers)
    requires m.state !in {PrepareState, AcceptPreCommitEndorsement} && e in m.pending && e.kind == Timeout(m.state)
    requires !a.stale && !a.future
    ensures StepsLeft(Handled(m, e, a).state) == StepsLeft(m.state) - 1
    ensures Handled(m, e, a).state != AcceptPreCommitEndorsement
  {
  }

  /** The context answers as it likes, but fairly, and takes no event of the current round for a future one. */
  ghost predicate FairContext(ctx: (Machine, Event) -> Answers) {
    forall m, e :: Fair(m, e, ctx(m, e)) && (e.round == m.round ==> !ctx(m, e).future)
  }

  lemma NotDropped(m: Machine, e: Event, ctx: (Machine, Event) -> Answers)
    requires FairContext(ctx) && Drives(e.kind) && e.round == m.round
    ensures Fair(m, e, ctx(m, e)) && !ctx(m, e).stale && !ctx(m, e).future
  {
  }

  /** From any state of a round short of agreement, timeouts alone lead back to preparing. */
  lemma {:induction false} RoundEnds(m: Machine, ctx: (Machine, Event) -> Answers)
      returns (run: seq<Machine>, moves: seq<Move>)
    requires Driven(m) && FairContext(ctx) && m.state != AcceptPreCommitEndorsement
    ensures IsRun(run, moves) && run[0] == m && |moves| == StepsLeft(m.state) && run[|moves|].state == PrepareState
    ensures forall i :: 0 <= i < |moves| ==> moves[i].Take? && moves[i].event.kind == Timeout(run[i].state)
    decreases StepsLeft(m.state)
  {
    hide Handled, Fair, FairContext, Driven;
    if m.state == PrepareState {
      return [m], [];
    }
    var e := ItsTimeout(m);
    NotDropped(m, e, ctx);
    var move := Take(e, ctx(m, e));
    TimeoutMovesOn(m, e, ctx(m, e));
    MoveKeepsDriven(m, move);
    run, moves := RoundEnds(Moved(m, move), ctx);
    run, moves := [m] + run, [move] + moves;
  }

  lemma ItsTimeout(m: Machine) returns (e: Event)
    requires Driven(m)
    ensures e in m.pending && e.kind == Timeout(m.state) && e.round == m.round
  {
    assert Waiting(m.pending, m.round, Timeout(m.state));
    e :| e in m.pending && e.kind == Timeout(m.state) && e.round == m.round;
  }
}

/** The machine as an object whose handlers change its state and its pending events step by step. */
module ConsensusFsm {
  import opened ConsensusFsmSpec

  /** Events queued one after the other are the events queued together. */
  lemma Regroup(p: multiset<Event>, a: multiset<Event>, b: multiset<Event>)
    ensures p + a + b == p + (a + b)
  {
  }

  class ConsensusFSM {
    var current: State
    var pending: multiset<Event>
    ghost var round: nat
    ghost var calls: seq<Call>

    ghost function Now(): Machine
      reads this
    {
      Machine(current, pending, round, calls)
    }

    /** The machine once a handler's verdict is taken: an error leaves the state as it was. */
    ghost function Went(dst: State, failed: bool): Machine
      reads this
    {
      Now().(state := if failed then current else dst)
    }

    /** Built in its initial state; starting the scheme queues an event to prepare. */
    constructor (first: Event)
      requires first.kind == Prepare
      ensures Starts(Now())
    {
      current, pending, round, calls := PrepareState, multiset{first}, first.round, [];
      new;
      assert first in pending;
    }

    /** Queues an event of a kind; a context that makes none queues nothing. */
    method Produce(a: Answers, k: Kind, d: Data)
      modifies this`pending
      ensures pending == old(pending) + Made(a, k, d)
    {
      if k in a.made {
        pending := pending + multiset{Event(k, d, a.made[k])};
      }
    }

    method BackToPrepare(a: Answers) returns (dst: State)
      modifies this`pending
      ensures pending == old(pending) + Made(a, Prepare, Nothing) && dst == PrepareState
    {
      Produce(a, Prepare, Nothing);
      dst := PrepareState;
    }

    /** A handler's verdict: the machine reacts as specified, and goes where the table lets it. */
    twostate predicate Does(e: Event, a: Answers, dst: State, failed: bool)
      reads this
    {
      && current == old(current) && Destinations(current, e.kind) != {}
      && Went(dst, failed) == Reaction(old(Now()), e, a)
      && (failed || dst in Destinations(current, e.kind))
    }

    method OnCalibrate(e: Event, a: Answers) returns (dst: State, failed: bool)
      requires current != PrepareState && e.kind == Calibrate
      modifies this`pending
      ensures Does(e, a, dst, failed)
    {
      if !e.data.Height? || a.height > e.data.height {
        return PrepareState, true;
      }
      dst := BackToPrepare(a);
      failed := false;
    }

    method OnPrepare(e: Event, a: Answers) returns (dst: State)
      requires current == PrepareState && e.kind == Prepare
      modifies this`pending, this`calls
      ensures Does(e, a, dst, false)
    {
      hide Made;
      var p := a.preparation;
      if p.failed || !p.active || !p.isDelegate {
        dst := BackToPrepare(a);
        return;
      }
      calls := calls + [PrepareSucceeded];
      Produce(a, FailedToReceiveBlock, Nothing);
      Produce(a, StopReceivingProposalEndorsement, Nothing);
      Produce(a, StopReceivingLockEndorsement, Nothing);
      if p.isProposer || p.locked {
        Produce(a, ReceiveBlock, p.proposal);
      }
      ghost var block, proposal := Made(a, FailedToReceiveBlock, Nothing),
          Made(a, StopReceivingProposalEndorsement, Nothing);
      ghost var timers := block + proposal + Made(a, StopReceivingLockEndorsement, Nothing);
      Regroup(old(pending), block, proposal);
      Regroup(old(pending), block + proposal, Made(a, StopReceivingLockEndorsement, Nothing));
      Regroup(old(pending), timers, Made(a, ReceiveBlock, p.proposal));
      assert timers + multiset{} == timers;
      dst := AcceptBlockProposal;
    }

    /** A block came, or its time is up: then the state moves on even without an endorsement. */
    method OnBlock(e: Event, a: Answers) returns (dst: State)
      requires current == AcceptBlockProposal && e.kind in {ReceiveBlock, FailedToReceiveBlock}
      modifies this`pending
      ensures Does(e, a, dst, false)
    {
      if !a.endorsement.Failed? {
        Produce(a, ReceiveProposalEndorsement, if a.endorsement.NotYet? then Nothing else a.endorsement.message);
      }
      dst := if e.kind == ReceiveBlock && a.endorsement.Failed? then AcceptBlockProposal else AcceptProposalEndorsement;
    }

    method OnReceiveProposalEndorsement(e: Event, a: Answers) returns (dst: State)
      requires current == AcceptProposalEndorsement
      requires e.kind in {ReceiveProposalEndorsement, ReceivePreCommitEndorsement}
      modifies this`pending
      ensures Does(e, a, dst, false)
    {
      if !a.endorsement.Endorsed? {
        return AcceptProposalEndorsement;
      }
      Produce(a, ReceiveLockEndorsement, a.endorsement.message);
      dst := AcceptLockEndorsement;
    }

    method OnReceiveLockEndorsement(e: Event, a: Answers) returns (dst: State, failed: bool)
      requires current == AcceptLockEndorsement && e.kind in {ReceiveLockEndorsement, ReceivePreCommitEndorsement}
      modifies this`pending, this`calls
      ensures Does(e, a, dst, failed)
    {
      hide Made;
      if !a.endorsement.Endorsed? {
        return AcceptLockEndorsement, a.endorsement.Failed?;
      }
      calls := calls + [PreCommitEndorsed];
      Produce(a, ReceivePreCommitEndorsement, a.endorsement.message);
      Produce(a, BroadcastPreCommitEndorsement, a.endorsement.message);
      Regroup(old(pending), Made(a, ReceivePreCommitEndorsement, a.endorsement.message),
              Made(a, BroadcastPreCommitEndorsement, a.endorsement.message));
      return AcceptPreCommitEndorsement, false;
    }

    method OnReceivePreCommitEndorsement(e: Event, a: Answers) returns (dst: State, failed: bool)
      requires current == AcceptPreCommitEndorsement && e.kind == ReceivePreCommitEndorsement
      modifies this`pending, this`calls
      ensures Does(e, a, dst, failed)
    {
      calls := calls + [CommitCalled(a.commitment.Committed?)];
      if !a.commitment.Committed? {
        return AcceptPreCommitEndorsement, a.commitment.CommitFailed?;
      }
      dst := BackToPrepare(a);
      failed := false;
    }

    /** The end of a phase, and the rebroadcast. */
    method OnTimeout(e: Event, a: Answers) returns (dst: State)
      requires e.kind == Timeout(current) && current !in {PrepareState, AcceptBlockProposal}
      modifies this`pending
      ensures Does(e, a, dst, false)
    {
      match e.kind
      case StopReceivingProposalEndorsement =>
        dst := AcceptLockEndorsement;
      case StopReceivingLockEndorsement =>
        dst := BackToPrepare(a);
      case BroadcastPreCommitEndorsement =>
        pending := pending + multiset{e};
        dst := AcceptPreCommitEndorsement;
    }

    /** Finds the transition and runs its handler. */
    method Dispatch(e: Event, a: Answers) returns (found: bool, dst: State, failed: bool)
      modifies this`pending, this`calls
      ensures found <==> Destinations(current, e.kind) != {}
      ensures if found then Does(e, a, dst, failed) else Now() == old(Now())
    {
      hide Reaction;
      found, dst, failed := true, current, false;
      match (current, e.kind) {
        case (PrepareState, Prepare) => dst := OnPrepare(e, a);
        case (AcceptBlockProposal, ReceiveBlock) => dst := OnBlock(e, a);
        case (AcceptBlockProposal, FailedToReceiveBlock) => dst := OnBlock(e, a);
        case (AcceptProposalEndorsement, ReceiveProposalEndorsement) => dst := OnReceiveProposalEndorsement(e, a);
        case (AcceptProposalEndorsement, ReceivePreCommitEndorsement) => dst := OnReceiveProposalEndorsement(e, a);
        case (AcceptProposalEndorsement, StopReceivingProposalEndorsement) => dst := OnTimeout(e, a);
        case (AcceptLockEndorsement, ReceiveLockEndorsement) => dst, failed := OnReceiveLockEndorsement(e, a);
        case (AcceptLockEndorsement, ReceivePreCommitEndorsement) => dst, failed := OnReceiveLockEndorsement(e, a);
        case (AcceptLockEndorsement, StopReceivingLockEndorsement) => dst := OnTimeout(e, a);
        case (AcceptPreCommitEndorsement, BroadcastPreCommitEndorsement) => dst := OnTimeout(e, a);
        case (AcceptPreCommitEndorsement, ReceivePreCommitEndorsement) =>
            dst, failed := OnReceivePreCommitEndorsement(e, a);
        case (_, Calibrate) =>
          found := current != PrepareState;
          if found {
            dst, failed := OnCalibrate(e, a);
          }
        case _ => found := false;
      }
    }

    /** Takes an event off the queue and does with it what the specification says. */
    method Handle(e: Event, a: Answers)
      requires e in pending
      modifies this
      ensures Now() == Handled(old(Now()), e, a)
    {
      hide Reaction;
      pending := pending - multiset{e};
      if a.stale {
        return;
      }
      if a.future {
        pending := pending + multiset{e};
        return;
      }
      var found, dst, failed := Dispatch(e, a);
      if !found {
        if !a.staleUnmatched {
          pending := pending + multiset{e};
        }
        return;
      }
      if !failed {
        current := dst;
      }
      round := a.round;
    }
  }
}
