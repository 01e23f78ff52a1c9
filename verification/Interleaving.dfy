/** Concurrent calls.  SQLite takes the write lock at a call's first INSERT or UPDATE, so everything a call reads
  before that is an unlocked read and everything after it is one atomic write.  Here each call is split there, the
  pieces of all calls interleave in any order, and the UNIQUE constraints decide who wins. */
module Interleaving {
  import opened Wrappers
  import opened Ordering
  import opened LedgerTables
  import opened LedgerTools
  import opened LedgerInvariants
  import opened ProposalLifecycle
  import opened ApprovalGate

  /** Where a call stands. `p` is the proposal as this call read it, possibly stale by now. */
  datatype Pc =
    | RecordReading(b: Bundle)
    | RecordPeriod(b: Bundle)
    | RecordPolicy(b: Bundle, force: bool)
    | RecordDuplicates(b: Bundle, policy: PolicyDecision)
    | RecordLooking(b: Bundle, policy: PolicyDecision, duplicates: Option<set<nat>>)
    | RecordProposing(b: Bundle, policy: PolicyDecision, duplicates: Option<set<nat>>)
    | RecordCommitting(b: Bundle)
    | RecoverReading(b: Bundle)
    | RecoverLooking(b: Bundle)
    | ApproveReading(a: DecisionIn)
    | ApproveChecking(a: DecisionIn, p: Proposal)
    | ApproveCounting(a: DecisionIn, p: Proposal)
    | ApproveWriting(a: DecisionIn, p: Proposal)
    | RejectReading(a: DecisionIn)
    | RejectWriting(a: DecisionIn, p: Proposal)
    | Finished(sourceSystem: string, externalId: string, outcome: Outcome)

  datatype Config = Config(db: Db, threads: map<nat, Pc>)

  // ------------------------------------------------------------------ one piece of one call

  function Done(p: Proposal, outcome: Outcome): Pc {
    Finished(p.sourceSystem, p.externalId, outcome)
  }

  function Answered(b: Bundle, result: (Db, Outcome)): (Db, Pc) {
    (result.0, Finished(b.sourceSystem, b.externalId, result.1))
  }

  function WrittenOrRecovering(db: Db, b: Bundle, written: Option<(Db, Outcome)>): (Db, Pc) {
    match written
    case Some(result) => Answered(b, result)
    case None => (db, RecoverReading(b))
  }

  /** How many pieces a call has left at most. */
  function Remaining(pc: Pc): nat {
    match pc
    case RecordReading(_) => 8
    case RecordPeriod(_) => 7
    case RecordPolicy(_, _) => 6
    case RecordDuplicates(_, _) => 5
    case RecordLooking(_, _, _) => 4
    case RecordProposing(_, _, _) => 3
    case RecordCommitting(_) => 3
    case RecoverReading(_) => 2
    case RecoverLooking(_) => 1
    case ApproveReading(_) => 3
    case ApproveChecking(_, _) => 2
    case ApproveCounting(_, _) => 1
    case ApproveWriting(_, _) => 1
    case RejectReading(_) => 2
    case RejectWriting(_, _) => 1
    case Finished(_, _, _) => 0
  }

  /** A call to approve or reject. */
  predicate Deciding(pc: Pc) {
    pc.ApproveReading? || pc.ApproveChecking? || pc.ApproveCounting? || pc.ApproveWriting? || pc.RejectReading?
        || pc.RejectWriting?
  }

  function RecordPiece(db: Db, pc: Pc, selected: Option<PolicyRule>, duplicates: Option<set<nat>>): (r: (Db, Pc))
    requires !Deciding(pc) && !pc.Finished?
    ensures Remaining(r.1) < Remaining(pc)
  {
    match pc
    case RecordReading(b) =>
      (db, if !AllUsd(b.postings) then Finished(b.sourceSystem, b.externalId, Err(OnlyUsd))
           else if !IsBalanced(b.postings) then Finished(b.sourceSystem, b.externalId, Err(Unbalanced))
           else
             match Replay(db.ledger, b.sourceSystem, b.externalId)
             case Some(r) => Finished(b.sourceSystem, b.externalId, Ok(r))
             case None => RecordPeriod(b))
    case RecordPeriod(b) =>
      (db, match PeriodGate(db, b)
           case Err(e) => Finished(b.sourceSystem, b.externalId, Err(e))
           case Ok(force) => RecordPolicy(b, force))
    case RecordPolicy(b, force) =>
      (db, RecordDuplicates(b, PolicyFrom(db.fallbackThreshold, Impact(b.postings), force, selected)))
    case RecordDuplicates(b, policy) =>
      var matches := DuplicateMatches(db, b.date, b.postings);
      (db, if policy.approvalRequired || matches != {}
           then RecordLooking(b, policy, if matches == {} then None else Some(matches))
           else RecordCommitting(b))
    case RecordLooking(b, policy, matches) =>
      (match FindProposal(db.proposals, b.sourceSystem, b.externalId)
       case None => (db, RecordProposing(b, policy, matches))
       case Some(p) => Answered(b, AnswerWithProposal(db, p, matches)))
    case RecordProposing(b, policy, matches) => WrittenOrRecovering(db, b, WriteProposal(db, b, policy, matches))
    case RecordCommitting(b) => WrittenOrRecovering(db, b, WriteDirect(db, b))
    case RecoverReading(b) =>
      (db, match Replay(db.ledger, b.sourceSystem, b.externalId)
           case Some(r) => Finished(b.sourceSystem, b.externalId, Ok(r))
           case None => RecoverLooking(b))
    case RecoverLooking(b) =>
      (match FindProposal(db.proposals, b.sourceSystem, b.externalId)
       case None => (db, Finished(b.sourceSystem, b.externalId, Err(IntegrityFailure)))
       case Some(p) => Answered(b, AnswerWithProposal(db, p, duplicates)))
  }

  function DecidePiece(db: Db, pc: Pc): (r: (Db, Pc))
    requires Deciding(pc)
    ensures Remaining(r.1) < Remaining(pc)
  {
    match pc
    case ApproveReading(a) =>
      (db, match FindProposalById(db.proposals, a.proposalId)
           case None => Finished("", "", Err(ProposalNotFound))
           case Some(p) =>
             match ApproveRead(p, a)
             case Some(answer) => Done(p, answer)
             case None => ApproveChecking(a, p))
    case ApproveChecking(a, p) => (db, if AlreadyApproved(db, a) then ApproveCounting(a, p) else ApproveWriting(a, p))
    case ApproveCounting(a, p) =>
      (db, Done(p, Ok(PendingResponse(p, ApprovalCount(db.decisions, p.proposalId, Required(p))))))
    case ApproveWriting(a, p) => var result := WriteApproval(db, a, p); (result.0, Done(p, result.1))
    case RejectReading(a) =>
      (db, match FindProposalById(db.proposals, a.proposalId)
           case None => Finished("", "", Err(ProposalNotFound))
           case Some(p) =>
             match RejectRead(p)
             case Some(answer) => Done(p, answer)
             case None => RejectWriting(a, p))
    case RejectWriting(a, p) => var result := WriteRejection(db, a, p); (result.0, Done(p, result.1))
  }

  /** A rule that can be checked without counting rows. */
  predicate Limitless(rule: PolicyRule) {
    rule.velocityCount.None? || rule.velocityWindow.None?
  }

  /** An active rule that matches the bundle whatever the counts are. */
  predicate Certain(db: Db, rule: PolicyRule, b: Bundle) {
    rule in db.rules && rule.active && CriteriaMatch(rule, b) && Limitless(rule)
  }

  /** What rule evaluation can select: the rules are loaded at once, but each velocity limit is counted later, so a
    limited rule may or may not match.  No certain rule is ever passed over. */
  ghost predicate Selectable(db: Db, b: Bundle, selected: Option<PolicyRule>) {
    && (selected.Some? ==>
          selected.value in db.rules && selected.value.active && CriteriaMatch(selected.value, b))
    && forall rule :: Certain(db, rule, b) ==> selected.Some? && RuleLe(selected.value, rule)
  }

  /** The next piece of a call.  `selected` is the rule that evaluation selects, and `duplicates` what recovery's
    duplicate query returns. */
  function Piece(db: Db, pc: Pc, selected: Option<PolicyRule>, duplicates: Option<set<nat>>): (r: (Db, Pc))
    requires !pc.Finished?
    ensures Remaining(r.1) < Remaining(pc)
  {
    if Deciding(pc) then DecidePiece(db, pc) else RecordPiece(db, pc, selected, duplicates)
  }

  ghost predicate ThreadStep(db: Db, pc: Pc, next: Db, pc': Pc) {
    && !pc.Finished?
    && exists selected, duplicates ::
         (pc.RecordPolicy? ==> Selectable(db, pc.b, selected)) && (next, pc') == Piece(db, pc, selected, duplicates)
  }

  // ------------------------------------------------------------------ runs of many calls

  predicate Starting(pc: Pc) {
    pc.RecordReading? || pc.ApproveReading? || pc.RejectReading?
  }

  /** Changes to the tables the write tools only read. */
  predicate Background(call: Call) {
    !call.RecordCall? && !call.ApproveCall? && !call.RejectCall?
  }

  datatype Event = Arrive(thread: nat, pc: Pc) | Advance(thread: nat) | Change(call: Call)

  ghost predicate Next(c: Config, e: Event, c': Config) {
    match e
    case Arrive(t, pc) => t !in c.threads && Starting(pc) && c' == c.(threads := c.threads[t := pc])
    case Advance(t) =>
      && t in c.threads && t in c'.threads
      && ThreadStep(c.db, c.threads[t], c'.db, c'.threads[t])
      && c'.threads == c.threads[t := c'.threads[t]]
    case Change(call) => Background(call) && c'.threads == c.threads && c'.db == Step(c.db, call)
  }

  /** A schedule: states joined by events. */
  ghost predicate Schedule(states: seq<Config>, events: seq<Event>) {
    && |states| == |events| + 1
    && forall i :: 0 <= i < |events| ==> Next(states[i], events[i], states[i + 1])
  }

  // ------------------------------------------------------------------ the invariant of every interleaving

  /** A proposal always answers, a committed answer reports a ledger row under its key, and a committed proposal has
    its quorum. */
  predicate Tracked(db: Db, p: Proposal) {
    && RequestSound(p) && p.response.Some?
    && (p.response.value.body.CommittedBody? ==> ReportsKey(db.ledger, p.sourceSystem, p.externalId, p.response.value))
    && (p.status == Approved ==>
          && p.response.value.body.CommittedBody?
          && p.approvedTransaction == Some(p.response.value.body.transactionId)
          && ApprovalCount(db.decisions, p.proposalId, Required(p)) >= Required(p))
  }

  predicate ReportsKey(ledger: seq<LedgerRow>, sourceSystem: string, externalId: string, response: Response) {
    exists r :: r in ledger && HasKey(r, sourceSystem, externalId) && Reports(response, r)
  }

  ghost predicate SharedInv(db: Db) {
    LedgerInv(db) && ProposalKeysUnique(db.proposals) && forall p :: p in db.proposals ==> Tracked(db, p)
  }

  /** The same proposal, at possibly another time. */
  predicate SameRequest(p: Proposal, q: Proposal) {
    q == p.(status := q.status, response := q.response, reason := q.reason,
            approvedTransaction := q.approvedTransaction)
  }

  predicate Known(db: Db, p: Proposal) {
    exists q :: q in db.proposals && SameRequest(p, q)
  }

  predicate Checked(b: Bundle) {
    AllUsd(b.postings) && IsBalanced(b.postings)
  }

  /** What a call may rely on at its program point, whatever the others did meanwhile. */
  predicate Relies(db: Db, pc: Pc) {
    match pc
    case RecordReading(_) => true
    case RecordPeriod(b) => Checked(b)
    case RecordPolicy(b, _) => Checked(b)
    case RecordDuplicates(b, _) => Checked(b)
    case RecordLooking(b, _, _) => Checked(b)
    case RecordProposing(b, _, _) => Checked(b)
    case RecordCommitting(b) => Checked(b)
    case RecoverReading(b) => Checked(b)
    case RecoverLooking(b) => Checked(b)
    case ApproveReading(_) => true
    case ApproveChecking(a, p) => p.proposalId == a.proposalId && Known(db, p)
    case ApproveCounting(a, p) => p.proposalId == a.proposalId && Known(db, p)
    case ApproveWriting(a, p) => p.proposalId == a.proposalId && Known(db, p)
    case RejectReading(_) => true
    case RejectWriting(a, p) => p.proposalId == a.proposalId && Known(db, p)
    case Finished(source, external, outcome) =>
      outcome.Ok? && outcome.value.body.CommittedBody? ==> ReportsKey(db.ledger, source, external, outcome.value)
  }

  ghost predicate ConfigInv(c: Config) {
    SharedInv(c.db) && forall t :: t in c.threads ==> Relies(c.db, c.threads[t])
  }

  /** What no step ever takes away. */
  predicate Grows(db: Db, next: Db) {
    && db.ledger <= next.ledger && db.decisions <= next.decisions
    && forall p :: p in db.proposals ==> Known(next, p)
  }

  lemma SameRequestSelf(db: Db, p: Proposal)
    requires p in db.proposals
    ensures Known(db, p)
  {
    assert SameRequest(p, p);
  }

  lemma StandsStill(db: Db)
    ensures Grows(db, db)
  {
    forall p | p in db.proposals
      ensures Known(db, p)
    {
      SameRequestSelf(db, p);
    }
  }

  lemma KnownGrows(db: Db, next: Db, p: Proposal)
    requires Known(db, p) && Grows(db, next)
    ensures Known(next, p)
  {
    var q :| q in db.proposals && SameRequest(p, q);
    var r :| r in next.proposals && SameRequest(q, r);
    assert SameRequest(p, r);
  }

  lemma ReportsGrows(ledger: seq<LedgerRow>, grown: seq<LedgerRow>, sourceSystem: string, externalId: string,
                     response: Response)
    requires ReportsKey(ledger, sourceSystem, externalId, response) && forall r :: r in ledger ==> r in grown
    ensures ReportsKey(grown, sourceSystem, externalId, response)
  {
    var r :| r in ledger && HasKey(r, sourceSystem, externalId) && Reports(response, r);
    assert r in grown;
  }

  lemma ReliesGrows(db: Db, next: Db, pc: Pc)
    requires Relies(db, pc) && Grows(db, next)
    ensures Relies(next, pc)
  {
    hide Known, ReportsKey, Grows;
    match pc
    case ApproveChecking(_, p) => KnownGrows(db, next, p);
    case ApproveCounting(_, p) => KnownGrows(db, next, p);
    case ApproveWriting(_, p) => KnownGrows(db, next, p);
    case RejectWriting(_, p) => KnownGrows(db, next, p);
    case Finished(source, external, outcome) =>
      if outcome.Ok? && outcome.value.body.CommittedBody? {
        LedgerGrows(db, next);
        ReportsGrows(db.ledger, next.ledger, source, external, outcome.value);
      }
    case _ =>
  }

  lemma LedgerGrows(db: Db, next: Db)
    requires Grows(db, next)
    ensures forall r :: r in db.ledger ==> r in next.ledger
  {
  }

  // ------------------------------------------------------------------ approvals only accumulate

  lemma CountAppend(decisions: seq<Decision>, d: Decision, id: nat, required: nat)
    ensures ApprovalCount(decisions + [d], id, required) >= ApprovalCount(decisions, id, required)
  {
    DecisionsAppend(decisions, d, id, Approve);
    var before, after := DecisionsOn(decisions, id, Approve), DecisionsOn(decisions + [d], id, Approve);
    hide DecisionsOn;
    var names := set x | x in before && x.approverId.Some? :: x.approverId.value;
    var more := set x | x in after && x.approverId.Some? :: x.approverId.value;
    assert forall x :: x in before ==> x in after;
    assert names <= more;
    SubsetSize(names, more);
  }

  lemma {:induction false} TrackedGrows(db: Db, next: Db, p: Proposal)
    requires Tracked(db, p)
    requires forall r :: r in db.ledger ==> r in next.ledger
    requires ApprovalCount(next.decisions, p.proposalId, Required(p)) >=
               ApprovalCount(db.decisions, p.proposalId, Required(p))
    ensures Tracked(next, p)
  {
    hide ApprovalCount, ReportsKey, RequestSound;
    if p.response.value.body.CommittedBody? {
      ReportsGrows(db.ledger, next.ledger, p.sourceSystem, p.externalId, p.response.value);
    }
  }

  // ------------------------------------------------------------------ the writes

  lemma ProposingShared(db: Db, b: Bundle, policy: PolicyDecision, duplicates: Option<set<nat>>)
    requires SharedInv(db) && Checked(b)
    requires FindProposal(db.proposals, b.sourceSystem, b.externalId).None?
    ensures var next := WithProposal(db, b, policy, duplicates);
            SharedInv(next) && Grows(db, next)
  {
    hide Units, CanonicalPosting, DecisionsOn, PostingsOwned, RowsComplete, AlwaysBalanced, LedgerKeysUnique;
    hide ApprovalCount, ReportsKey;
    var next := WithProposal(db, b, policy, duplicates);
    var p := next.proposals[|db.proposals|];
    CanonicalUnits(b.postings, p.request.postings);
    forall q | q in next.proposals
      ensures Tracked(next, q)
    {
      if q != p {
        TrackedGrows(db, next, q);
      }
    }
    LedgerFrame(db, next);
    forall q | q in db.proposals
      ensures Known(next, q)
    {
      SameRequestSelf(next, q);
    }
  }

  lemma CommittingShared(db: Db, b: Bundle)
    requires SharedInv(db) && Checked(b) && Insertable(db, b)
    ensures var next := Appended(db, b, DirectResponse(db, b));
            && SharedInv(next) && Grows(db, next)
            && ReportsKey(next.ledger, b.sourceSystem, b.externalId, DirectResponse(db, b))
  {
    hide DecisionsOn, PostingsOwned, RowsComplete, AlwaysBalanced, LedgerKeysUnique, ApprovalCount, Sort, PostingRows;
    hide Insertable;
    var next := Appended(db, b, DirectResponse(db, b));
    AppendKeepsLedger(db, b, DirectResponse(db, b));
    var row := next.ledger[|db.ledger|];
    assert row in next.ledger && Reports(DirectResponse(db, b), row);
    forall q | q in next.proposals
      ensures Tracked(next, q) && Known(next, q)
    {
      TrackedGrows(db, next, q);
      SameRequestSelf(next, q);
    }
  }

  lemma CurrentVersion(db: Db, p: Proposal) returns (q: Proposal)
    requires SharedInv(db) && Known(db, p)
    ensures q in db.proposals && SameRequest(p, q) && q.proposalId == p.proposalId
    ensures Tracked(db, q) && RequestSound(p)
  {
    q :| q in db.proposals && SameRequest(p, q);
  }

  /** Updating a proposal by id updates its current version. */
  lemma PersistCurrent(db: Db, p: Proposal, q: Proposal, updated: Proposal)
    requires ProposalKeysUnique(db.proposals) && q in db.proposals && SameRequest(p, q) && SameRequest(p, updated)
    requires updated.response.Some?
    ensures Persisted(db, p, updated) == Persisted(db, q, updated)
    ensures var next := Persisted(db, q, updated);
            && ProposalKeysUnique(next.proposals) && updated in next.proposals
            && (forall x :: x in next.proposals ==> x == updated || (x in db.proposals && x.proposalId != q.proposalId))
            && (forall x :: x in db.proposals ==> Known(next, x))
  {
    PersistEffect(db.proposals, q, updated.status, updated.response.value, updated.reason, updated.approvedTransaction);
    hide Persist;
    var next := Persisted(db, q, updated);
    forall x | x in db.proposals
      ensures Known(next, x)
    {
      if x.proposalId == q.proposalId {
        FindProposalUnique(db.proposals, x);
        FindProposalUnique(db.proposals, q);
        assert SameRequest(x, updated);
      } else {
        SameRequestSelf(next, x);
      }
    }
  }

  /** Replacing the current version by a tracked one, over a grown ledger and more decisions. */
  lemma UpdateShared(db: Db, base: Db, p: Proposal, q: Proposal, updated: Proposal)
    requires SharedInv(db) && q in db.proposals && SameRequest(p, q) && SameRequest(p, updated)
    requires updated.response.Some?
    requires LedgerInv(base) && base.proposals == db.proposals && db.ledger <= base.ledger
    requires db.decisions <= base.decisions
    requires forall x :: x in db.proposals ==>
               ApprovalCount(base.decisions, x.proposalId, Required(x)) >=
                   ApprovalCount(db.decisions, x.proposalId, Required(x))
    requires Tracked(Persisted(base, p, updated), updated)
    ensures SharedInv(Persisted(base, p, updated)) && Grows(db, Persisted(base, p, updated))
  {
    hide ApprovalCount, DecisionsOn, PostingsOwned, RowsComplete, AlwaysBalanced, LedgerKeysUnique, Tracked, Required;
    PersistCurrent(base, p, q, updated);
    hide Persist;
    var next := Persisted(base, p, updated);
    assert q.proposalId == updated.proposalId;
    assert forall x :: x in next.proposals ==> x.proposalId < next.nextId;
    LedgerFrame(base, next);
    forall x | x in next.proposals
      ensures Tracked(next, x)
    {
      if x != updated {
        TrackedGrows(db, next, x);
      }
    }
  }

  lemma ApprovalsKept(db: Db, a: DecisionIn)
    ensures forall x :: x in db.proposals ==>
              ApprovalCount(WithApproval(db, a).decisions, x.proposalId, Required(x)) >=
                  ApprovalCount(db.decisions, x.proposalId, Required(x))
    ensures db.decisions <= WithApproval(db, a).decisions
  {
    hide ApprovalCount, Required;
    forall x | x in db.proposals
      ensures ApprovalCount(WithApproval(db, a).decisions, x.proposalId, Required(x)) >=
                ApprovalCount(db.decisions, x.proposalId, Required(x))
    {
      CountAppend(db.decisions, Decision(a.proposalId, Approve, a.approverId, a.reason), x.proposalId, Required(x));
    }
  }

  lemma StagedShared(db: Db, a: DecisionIn, q: Proposal)
    requires SharedInv(db) && q in db.proposals && q.proposalId == a.proposalId
    ensures LedgerInv(WithApproval(db, a))
  {
    hide DecisionClash, PostingsOwned, RowsComplete, AlwaysBalanced, LedgerKeysUnique, Tracked;
    LedgerFrame(db, WithApproval(db, a));
  }

  lemma ApprovingShared(db: Db, a: DecisionIn, p: Proposal)
    requires SharedInv(db) && Known(db, p) && p.proposalId == a.proposalId
    ensures var (next, outcome) := WriteApproval(db, a, p);
            && SharedInv(next) && Grows(db, next)
            && (outcome.Ok? && outcome.value.body.CommittedBody? ==>
                  ReportsKey(next.ledger, p.sourceSystem, p.externalId, outcome.value))
            && (outcome.Err? ==> next == db)
  {
    hide ApprovalCount, SharedInv, Grows, WithApproval, Insertable, InsertBundle, Replay, Appended, Persist;
    hide WriteCommit, ReportsKey;
    StandsStill(db);
    var q := CurrentVersion(db, p);
    ApprovalsKept(db, a);
    StagedShared(db, a, q);
    SharedParts(db, a);
    var staged := WithApproval(db, a);
    var received := ApprovalCount(staged.decisions, p.proposalId, Required(p));
    if DecisionClash(db, a) && !Truthy(a.approverId) {
    } else if received < Required(p) {
      var updated :=
          p.(status := Pending, response := Some(PendingResponse(p, received)), reason := a.reason,
             approvedTransaction := None);
      UpdateShared(db, staged, p, q, updated);
    } else {
      WriteCommitShape(staged, a, p, received);
      ReplayReports(staged, p.sourceSystem, p.externalId);
      if Insertable(staged, p.request) {
        InsertionShared(db, a, p, q, received);
      } else if Replay(staged.ledger, p.sourceSystem, p.externalId).Some? {
        AdoptionShared(db, a, p, q, received);
      }
    }
  }

  lemma SharedParts(db: Db, a: DecisionIn)
    requires SharedInv(db) && LedgerInv(WithApproval(db, a))
    ensures IdsBelow(WithApproval(db, a)) && RowsComplete(WithApproval(db, a))
    ensures WithApproval(db, a).ledger == db.ledger && WithApproval(db, a).proposals == db.proposals
    ensures WithApproval(db, a).nextId == db.nextId
  {
  }

  lemma InsertionShared(db: Db, a: DecisionIn, p: Proposal, q: Proposal, received: nat)
    requires SharedInv(db) && q in db.proposals && SameRequest(p, q) && RequestSound(p) && p.proposalId == a.proposalId
    requires LedgerInv(WithApproval(db, a)) && Insertable(WithApproval(db, a), p.request)
    requires received == ApprovalCount(WithApproval(db, a).decisions, p.proposalId, Required(p)) >= Required(p)
    ensures var staged := WithApproval(db, a);
            var response := ApprovalResponse(staged, p, received);
            var next := Persisted(Appended(staged, p.request, response), p, ApprovedWith(p, response, a.reason));
            SharedInv(next) && Grows(db, next) && ReportsKey(next.ledger, p.sourceSystem, p.externalId, response)
  {
    hide ApprovalCount, LedgerInv, SharedInv, Persist, Sort, PostingRows, Insertable, WithApproval;
    ApprovalsKept(db, a);
    SharedParts(db, a);
    var staged := WithApproval(db, a);
    var response := ApprovalResponse(staged, p, received);
    var base := Appended(staged, p.request, response);
    AppendKeepsLedger(staged, p.request, response);
    var row := base.ledger[|staged.ledger|];
    assert row in base.ledger && Reports(response, row) && HasKey(row, p.sourceSystem, p.externalId);
    UpdateShared(db, base, p, q, ApprovedWith(p, response, a.reason));
  }

  lemma AdoptionShared(db: Db, a: DecisionIn, p: Proposal, q: Proposal, received: nat)
    requires SharedInv(db) && q in db.proposals && SameRequest(p, q) && RequestSound(p) && p.proposalId == a.proposalId
    requires LedgerInv(WithApproval(db, a))
    requires received == ApprovalCount(WithApproval(db, a).decisions, p.proposalId, Required(p)) >= Required(p)
    requires var r := Replay(WithApproval(db, a).ledger, p.sourceSystem, p.externalId);
             r.Some? && r.value.body.CommittedBody?
    ensures var staged := WithApproval(db, a);
            var response := AdoptionResponse(p, Replay(staged.ledger, p.sourceSystem, p.externalId).value, received);
            var next := Persisted(staged, p, ApprovedWith(p, response, a.reason));
            SharedInv(next) && Grows(db, next) && ReportsKey(next.ledger, p.sourceSystem, p.externalId, response)
  {
    hide ApprovalCount, LedgerInv, SharedInv, Persist, WithApproval, Replay;
    ApprovalsKept(db, a);
    SharedParts(db, a);
    var staged := WithApproval(db, a);
    ReplayReports(staged, p.sourceSystem, p.externalId);
    var row := FindRow(staged.ledger, p.sourceSystem, p.externalId).value;
    var response := AdoptionResponse(p, Replay(staged.ledger, p.sourceSystem, p.externalId).value, received);
    assert row in staged.ledger && Reports(response, row);
    UpdateShared(db, staged, p, q, ApprovedWith(p, response, a.reason));
  }

  lemma RejectingShared(db: Db, a: DecisionIn, p: Proposal)
    requires SharedInv(db) && Known(db, p) && p.proposalId == a.proposalId
    ensures var (next, outcome) := WriteRejection(db, a, p);
            && SharedInv(next) && Grows(db, next)
            && (outcome.Ok? ==> outcome.value.body.RejectedBody?)
            && (outcome.Err? ==> next == db)
  {
    hide ApprovalCount, LedgerInv, SharedInv, Persist, HasDecision;
    StandsStill(db);
    var (next, outcome) := WriteRejection(db, a, p);
    if outcome.Ok? {
      var q := CurrentVersion(db, p);
      var d := Decision(p.proposalId, Reject, a.approverId, a.reason);
      var base := db.(decisions := db.decisions + [d]);
      forall x | x in db.proposals
        ensures ApprovalCount(base.decisions, x.proposalId, Required(x)) >=
                  ApprovalCount(db.decisions, x.proposalId, Required(x))
      {
        CountAppend(db.decisions, d, x.proposalId, Required(x));
      }
      OneMoreDecision(db, d, q);
      UpdateShared(db, base, p, q,
            p.(status := Refused, response := Some(outcome.value), reason := a.reason, approvedTransaction := None));
    }
  }

  lemma OneMoreDecision(db: Db, d: Decision, q: Proposal)
    requires SharedInv(db) && q in db.proposals && d.proposalId == q.proposalId
    ensures LedgerInv(db.(decisions := db.decisions + [d]))
  {
    hide PostingsOwned, RowsComplete, AlwaysBalanced, LedgerKeysUnique, Tracked;
    LedgerFrame(db, db.(decisions := db.decisions + [d]));
  }

  // ------------------------------------------------------------------ every step keeps the invariant

  lemma AnswerShared(db: Db, p: Proposal, duplicates: Option<set<nat>>)
    requires SharedInv(db) && p in db.proposals
    ensures AnswerWithProposal(db, p, duplicates) == (db, Ok(p.response.value))
    ensures p.response.value.body.CommittedBody? ==>
              ReportsKey(db.ledger, p.sourceSystem, p.externalId, p.response.value)
  {
    assert Tracked(db, p);
  }

  lemma ReplayShared(db: Db, sourceSystem: string, externalId: string)
    requires SharedInv(db) && Replay(db.ledger, sourceSystem, externalId).Some?
    ensures ReportsKey(db.ledger, sourceSystem, externalId, Replay(db.ledger, sourceSystem, externalId).value)
  {
    ReplayReports(db, sourceSystem, externalId);
  }

  lemma SharedIds(db: Db)
    requires SharedInv(db)
    ensures IdsBelow(db)
  {
  }

  lemma ProposeWriteKeeps(db: Db, b: Bundle, policy: PolicyDecision, duplicates: Option<set<nat>>)
    requires SharedInv(db) && Checked(b)
    ensures var written := WriteProposal(db, b, policy, duplicates);
            written.Some? ==>
              && SharedInv(written.value.0) && Grows(db, written.value.0)
              && written.value.1.Ok? && written.value.1.value.body.ProposedBody?
  {
    hide SharedInv, Grows;
    SharedIds(db);
    if WriteProposal(db, b, policy, duplicates).Some? {
      WriteProposalShape(db, b, policy, duplicates);
      ProposingShared(db, b, policy, duplicates);
    }
  }

  predicate Reading(pc: Pc) {
    pc.RecordReading? || pc.RecordPeriod? || pc.RecordPolicy? || pc.RecordDuplicates? || pc.RecoverReading?
  }

  lemma ReadingPieceKeeps(db: Db, pc: Pc, selected: Option<PolicyRule>, duplicates: Option<set<nat>>)
    requires SharedInv(db) && Relies(db, pc) && Reading(pc)
    ensures var (next, pc') := Piece(db, pc, selected, duplicates);
            next == db && Relies(next, pc')
  {
    hide SharedInv, Replay, AnswerWithProposal, ReportsKey, DecidePiece, WriteProposal, WriteDirect, Known, Remaining;
    hide IsBalanced, AllUsd;
    if Replay(db.ledger, pc.b.sourceSystem, pc.b.externalId).Some? {
      ReplayShared(db, pc.b.sourceSystem, pc.b.externalId);
    }
  }

  lemma LookingPieceKeeps(db: Db, pc: Pc, selected: Option<PolicyRule>, duplicates: Option<set<nat>>)
    requires SharedInv(db) && Relies(db, pc) && (pc.RecordLooking? || pc.RecoverLooking?)
    ensures var (next, pc') := Piece(db, pc, selected, duplicates);
            next == db && Relies(next, pc')
  {
    hide SharedInv, Replay, AnswerWithProposal, ReportsKey, DecidePiece, WriteProposal, WriteDirect, Known, Remaining;
    hide IsBalanced, AllUsd;
    var found := FindProposal(db.proposals, pc.b.sourceSystem, pc.b.externalId);
    if found.Some? {
      AnswerShared(db, found.value, if pc.RecordLooking? then pc.duplicates else duplicates);
    }
  }

  lemma RecordWriteKeeps(db: Db, pc: Pc, selected: Option<PolicyRule>, duplicates: Option<set<nat>>)
    requires SharedInv(db) && Relies(db, pc) && (pc.RecordProposing? || pc.RecordCommitting?)
    ensures var (next, pc') := Piece(db, pc, selected, duplicates);
            SharedInv(next) && Grows(db, next) && Relies(next, pc')
  {
    hide SharedInv, WriteDirect, WriteProposal, ReportsKey, Grows, Insertable;
    StandsStill(db);
    if pc.RecordProposing? {
      ProposeWriteKeeps(db, pc.b, pc.policy, pc.duplicates);
    } else {
      SharedIds(db);
      WriteDirectShape(db, pc.b);
      if Insertable(db, pc.b) {
        CommittingShared(db, pc.b);
      }
    }
  }

  lemma DecidePieceKeeps(db: Db, pc: Pc, selected: Option<PolicyRule>, duplicates: Option<set<nat>>)
    requires SharedInv(db) && Relies(db, pc)
    requires Deciding(pc)
    ensures var (next, pc') := Piece(db, pc, selected, duplicates);
            SharedInv(next) && Grows(db, next) && Relies(next, pc')
  {
    hide SharedInv, WriteApproval, WriteRejection, Known, ReportsKey, Grows, ApprovalCount, AlreadyApproved;
    StandsStill(db);
    if pc.ApproveReading? || pc.RejectReading? {
      var found := FindProposalById(db.proposals, pc.a.proposalId);
      if found.Some? {
        SameRequestSelf(db, found.value);
        AnswerShared(db, found.value, None);
      }
    } else if pc.ApproveWriting? {
      ApprovingShared(db, pc.a, pc.p);
    } else if pc.RejectWriting? {
      RejectingShared(db, pc.a, pc.p);
    }
  }

  lemma ThreadStepKeeps(db: Db, pc: Pc, next: Db, pc': Pc)
    requires SharedInv(db) && Relies(db, pc) && ThreadStep(db, pc, next, pc')
    ensures SharedInv(next) && Grows(db, next) && Relies(next, pc')
  {
    hide SharedInv, Grows, Relies, Piece;
    StandsStill(db);
    var selected, duplicates :| (next, pc') == Piece(db, pc, selected, duplicates);
    if Deciding(pc) {
      DecidePieceKeeps(db, pc, selected, duplicates);
    } else if pc.RecordProposing? || pc.RecordCommitting? {
      RecordWriteKeeps(db, pc, selected, duplicates);
    } else if pc.RecordLooking? || pc.RecoverLooking? {
      LookingPieceKeeps(db, pc, selected, duplicates);
    } else {
      ReadingPieceKeeps(db, pc, selected, duplicates);
    }
  }

  lemma ChangeKeeps(db: Db, call: Call)
    requires SharedInv(db) && Background(call)
    ensures SharedInv(Step(db, call)) && Grows(db, Step(db, call))
  {
    hide ApprovalCount, PostingsOwned, RowsComplete, AlwaysBalanced, LedgerKeysUnique, Record, ApproveProposal;
    hide RejectProposal;
    var next := Step(db, call);
    LedgerFrame(db, next);
    forall p | p in next.proposals
      ensures Tracked(next, p) && Known(next, p)
    {
      TrackedGrows(db, next, p);
      SameRequestSelf(next, p);
    }
  }

  lemma NextKeeps(c: Config, e: Event, c': Config)
    requires ConfigInv(c) && Next(c, e, c')
    ensures ConfigInv(c') && Grows(c.db, c'.db)
  {
    hide SharedInv, ThreadStep, Grows, Step, Relies;
    StandsStill(c.db);
    match e {
      case Arrive(_, pc) => StartingRelies(c.db, pc);
      case Advance(t) => ThreadStepKeeps(c.db, c.threads[t], c'.db, c'.threads[t]);
      case Change(call) => ChangeKeeps(c.db, call);
    }
    forall t | t in c'.threads && t in c.threads && c'.threads[t] == c.threads[t]
      ensures Relies(c'.db, c'.threads[t])
    {
      ReliesGrows(c.db, c'.db, c.threads[t]);
    }
  }

  lemma StartingRelies(db: Db, pc: Pc)
    requires Starting(pc)
    ensures Relies(db, pc)
  {
  }

  /** Every schedule from a consistent start keeps the invariant in every state. */
  lemma {:induction false} ScheduleKeeps(states: seq<Config>, events: seq<Event>, i: nat)
    requires Schedule(states, events) && ConfigInv(states[0]) && i < |states|
    ensures ConfigInv(states[i])
  {
    hide ConfigInv, Next;
    if 0 < i {
      ScheduleKeeps(states, events, i - 1);
      NextKeeps(states[i - 1], events[i - 1], states[i]);
    }
  }

  /** A migrated database with nobody running. */
  lemma InitialConfig(db: Db)
    requires Fresh(db)
    ensures ConfigInv(Config(db, map[]))
  {
    FreshInv(db);
  }

  // ------------------------------------------------------------------ exactly once

  /** In every state of every schedule there is one complete ledger row per key, its postings balance and none is
    orphaned, and all finished calls that answer for a key with a commit agree on its transaction, postings and hash. */
  lemma ExactlyOnce(states: seq<Config>, events: seq<Event>, i: nat, t: nat, u: nat)
    requires Schedule(states, events) && Fresh(states[0].db) && states[0].threads == map[] && i < |states|
    requires t in states[i].threads && u in states[i].threads
    requires FinishedWithCommit(states[i].threads[t]) && FinishedWithCommit(states[i].threads[u])
    requires states[i].threads[t].sourceSystem == states[i].threads[u].sourceSystem
    requires states[i].threads[t].externalId == states[i].threads[u].externalId
    ensures LedgerInv(states[i].db)
    ensures var x, y := states[i].threads[t].outcome.value, states[i].threads[u].outcome.value;
            && x.body.transactionId == y.body.transactionId
            && x.body.postingIds == y.body.postingIds
            && x.outputHash == y.outputHash
    ensures exists r :: r in states[i].db.ledger && Reports(states[i].threads[t].outcome.value, r)
                        && HasKey(r, states[i].threads[t].sourceSystem, states[i].threads[t].externalId)
  {
    hide IdsBelow, PostingsOwned, RowsComplete, AlwaysBalanced, Tracked;
    InitialConfig(states[0].db);
    assert states[0] == Config(states[0].db, map[]);
    ScheduleKeeps(states, events, i);
    var c := states[i];
    assert Relies(c.db, c.threads[t]) && Relies(c.db, c.threads[u]);
    var r :| r in c.db.ledger && HasKey(r, c.threads[t].sourceSystem, c.threads[t].externalId)
        && Reports(c.threads[t].outcome.value, r);
    var s :| s in c.db.ledger && HasKey(s, c.threads[u].sourceSystem, c.threads[u].externalId)
        && Reports(c.threads[u].outcome.value, s);
    FindRowUnique(c.db.ledger, r);
    FindRowUnique(c.db.ledger, s);
  }

  predicate FinishedWithCommit(pc: Pc) {
    pc.Finished? && pc.outcome.Ok? && pc.outcome.value.body.CommittedBody?
  }

  /** A call that loses, by failing or by turning to recovery, leaves the database exactly as it was. */
  lemma LosersLeaveNoTrace(db: Db, pc: Pc, next: Db, pc': Pc)
    requires SharedInv(db) && Relies(db, pc) && ThreadStep(db, pc, next, pc')
    requires pc'.RecoverReading? || (pc'.Finished? && pc'.outcome.Err?)
    ensures next == db
  {
    hide SharedInv, WriteApproval, WriteRejection, Known, ReportsKey, ApprovalCount, AlreadyApproved, Replay;
    hide WriteDirect, WriteProposal;
    hide AnswerWithProposal, Insertable;
    var selected, duplicates :| (next, pc') == Piece(db, pc, selected, duplicates);
    if pc.ApproveWriting? {
      ApprovingShared(db, pc.a, pc.p);
    } else if pc.RejectWriting? {
      RejectingShared(db, pc.a, pc.p);
    } else if pc.RecordLooking? || pc.RecoverLooking? {
      var found := FindProposal(db.proposals, pc.b.sourceSystem, pc.b.externalId);
      if found.Some? {
        AnswerShared(db, found.value, if pc.RecordLooking? then pc.duplicates else duplicates);
      }
    } else if pc.RecordProposing? {
      ProposeWriteKeeps(db, pc.b, pc.policy, pc.duplicates);
    } else if pc.RecordCommitting? {
      SharedIds(db);
      WriteDirectShape(db, pc.b);
    }
  }

  // ------------------------------------------------------------------ committed proposals

  predicate StillCommitted(db: Db, id: nat) {
    exists p :: p in db.proposals && p.proposalId == id && p.status == Approved
  }

  /** A rejection that will go through: its decision does not repeat one on the unique index. */
  predicate RejectionLands(db: Db, pc: Pc, id: nat) {
    && pc.RejectWriting? && pc.p.proposalId == id
    && !(pc.a.approverId.Some? && HasDecision(db.decisions, id, Reject, pc.a.approverId.value))
  }

  lemma ApprovalKeepsCommitted(db: Db, a: DecisionIn, p: Proposal, q: Proposal)
    requires SharedInv(db) && Known(db, p) && p.proposalId == a.proposalId && q in db.proposals && q.status == Approved
    ensures StillCommitted(WriteApproval(db, a, p).0, q.proposalId)
  {
    hide SharedInv, ApprovalCount, InsertBundle, Replay, Appended, Persist, Insertable, WriteCommit, WithApproval;
    var current := CurrentVersion(db, p);
    ApprovalsKept(db, a);
    StagedShared(db, a, current);
    SharedParts(db, a);
    CommittedCount(db, q);
    UniqueCurrent(db, current, q);
    var staged := WithApproval(db, a);
    var received := ApprovalCount(staged.decisions, p.proposalId, Required(p));
    WriteCommitShape(staged, a, p, received);
    var next := WriteApproval(db, a, p).0;
    if received < Required(p) {
      if next != db {
        var updated :=
            p.(status := Pending, response := Some(PendingResponse(p, received)), reason := a.reason,
               approvedTransaction := None);
        PersistKeepsOther(staged, p, updated, q);
      }
    } else if next != db {
      ReplayReports(staged, p.sourceSystem, p.externalId);
      if Insertable(staged, p.request) {
        var response := ApprovalResponse(staged, p, received);
        AppendedProposals(staged, p.request, response);
        PersistKeepsOther(Appended(staged, p.request, response), p, ApprovedWith(p, response, a.reason), q);
      } else {
        var replay := Replay(staged.ledger, p.sourceSystem, p.externalId).value;
        PersistKeepsOther(staged, p, ApprovedWith(p, AdoptionResponse(p, replay, received), a.reason), q);
      }
    }
  }

  lemma AppendedProposals(db: Db, b: Bundle, response: Response)
    ensures Appended(db, b, response).proposals == db.proposals
  {
  }

  lemma CommittedCount(db: Db, q: Proposal)
    requires SharedInv(db) && q in db.proposals && q.status == Approved
    ensures ApprovalCount(db.decisions, q.proposalId, Required(q)) >= Required(q)
  {
    assert Tracked(db, q);
  }

  lemma UniqueCurrent(db: Db, p: Proposal, q: Proposal)
    requires SharedInv(db) && p in db.proposals && q in db.proposals
    ensures p.proposalId == q.proposalId ==> p == q
  {
    if p.proposalId == q.proposalId {
      FindProposalUnique(db.proposals, p);
      FindProposalUnique(db.proposals, q);
    }
  }

  /** Persisting a commit, or anything about another proposal, leaves a committed one committed. */
  lemma PersistKeepsOther(db: Db, p: Proposal, updated: Proposal, q: Proposal)
    requires q in db.proposals && q.status == Approved && updated.response.Some?
    requires updated.status == Approved || p.proposalId != q.proposalId
    ensures StillCommitted(Persisted(db, p, updated), q.proposalId)
  {
    var i :| 0 <= i < |db.proposals| && db.proposals[i] == q;
    assert Persisted(db, p, updated).proposals[i] in Persisted(db, p, updated).proposals;
  }

  /** Among all interleaved steps, only a rejection written from a stale read takes a proposal out of committed. */
  lemma OnlyStaleRejectionDemotes(db: Db, pc: Pc, next: Db, pc': Pc, q: Proposal)
    requires SharedInv(db) && Relies(db, pc) && ThreadStep(db, pc, next, pc')
    requires q in db.proposals && q.status == Approved
    ensures !StillCommitted(next, q.proposalId) <==> RejectionLands(db, pc, q.proposalId)
  {
    hide SharedInv, WriteApproval, WriteRejection, Known, ReportsKey, ApprovalCount, AlreadyApproved, Replay;
    hide WriteDirect, WriteProposal;
    hide AnswerWithProposal, Insertable, Appended;
    var selected, duplicates :| (next, pc') == Piece(db, pc, selected, duplicates);
    if pc.ApproveWriting? {
      ApprovalKeepsCommitted(db, pc.a, pc.p, q);
    } else if pc.RejectWriting? {
      RejectionDemotes(db, pc.a, pc.p, q);
    } else {
      RecordKeepsCommitted(db, pc, selected, duplicates, q);
    }
  }

  lemma RecordKeepsCommitted(db: Db, pc: Pc, selected: Option<PolicyRule>, duplicates: Option<set<nat>>, q: Proposal)
    requires SharedInv(db) && Relies(db, pc) && !pc.Finished? && !pc.ApproveWriting? && !pc.RejectWriting?
    requires q in db.proposals && q.status == Approved
    ensures StillCommitted(Piece(db, pc, selected, duplicates).0, q.proposalId)
  {
    hide SharedInv, ReportsKey, ApprovalCount, AlreadyApproved, Replay, WriteDirect, WriteProposal, AnswerWithProposal;
    hide Insertable, Appended;
    SharedIds(db);
    if pc.RecordLooking? || pc.RecoverLooking? {
      var found := FindProposal(db.proposals, pc.b.sourceSystem, pc.b.externalId);
      if found.Some? {
        AnswerShared(db, found.value, if pc.RecordLooking? then pc.duplicates else duplicates);
      }
    } else if pc.RecordProposing? && WriteProposal(db, pc.b, pc.policy, pc.duplicates).Some? {
      WriteProposalShape(db, pc.b, pc.policy, pc.duplicates);
    } else if pc.RecordCommitting? {
      WriteDirectShape(db, pc.b);
      AppendedProposals(db, pc.b, DirectResponse(db, pc.b));
    }
  }

  lemma RejectionDemotes(db: Db, a: DecisionIn, p: Proposal, q: Proposal)
    requires SharedInv(db) && Known(db, p) && q in db.proposals && q.status == Approved && p.proposalId == a.proposalId
    ensures !StillCommitted(WriteRejection(db, a, p).0, q.proposalId) <==>
              RejectionLands(db, RejectWriting(a, p), q.proposalId)
  {
    hide SharedInv, HasDecision, Persist;
    var current := CurrentVersion(db, p);
    UniqueCurrent(db, current, q);
    var (next, outcome) := WriteRejection(db, a, p);
    if outcome.Ok? {
      var updated :=
          p.(status := Refused, response := Some(outcome.value), reason := a.reason, approvedTransaction := None);
      if p.proposalId == q.proposalId {
        SharedKeys(db);
        PersistCurrent(db, p, current, updated);
      } else {
        PersistKeepsOther(db, p, updated, q);
      }
    }
  }

  lemma SharedKeys(db: Db)
    requires SharedInv(db)
    ensures ProposalKeysUnique(db.proposals)
  {
  }

  // ------------------------------------------------------------------ uninterrupted calls

  /** The rule selected, and what recovery's duplicate query returns, when nobody else runs meanwhile. */
  function QuietRule(db: Db, pc: Pc): Option<PolicyRule> {
    if pc.RecordPolicy? then FirstMatch(db, Sort(RuleLe, ActiveRules(db.rules)), pc.b) else None
  }

  function QuietDuplicates(db: Db, pc: Pc): Option<set<nat>> {
    if pc.RecoverLooking? && DuplicateMatches(db, pc.b.date, pc.b.postings) != {}
    then Some(DuplicateMatches(db, pc.b.date, pc.b.postings))
    else None
  }

  /** Running one call's pieces back to back. */
  function Alone(db: Db, pc: Pc): (Db, Outcome)
    decreases Remaining(pc)
  {
    if pc.Finished? then (db, pc.outcome)
    else
      var (next, pc') := Piece(db, pc, QuietRule(db, pc), QuietDuplicates(db, pc));
      Alone(next, pc')
  }

  lemma AlonePiece(db: Db, pc: Pc)
    requires !pc.Finished?
    ensures var (next, pc') := Piece(db, pc, QuietRule(db, pc), QuietDuplicates(db, pc));
            Alone(db, pc) == if pc'.Finished? then (next, pc'.outcome) else Alone(next, pc')
  {
    hide Piece, QuietRule, QuietDuplicates;
  }

  lemma UninterruptedRecover(db: Db, b: Bundle)
    ensures Alone(db, RecoverReading(b)) == Recover(db, b)
  {
    hide Replay, DuplicateMatches, AnswerWithProposal, Alone;
    AlonePiece(db, RecoverReading(b));
    AlonePiece(db, RecoverLooking(b));
  }

  lemma UninterruptedWrite(db: Db, b: Bundle, written: Option<(Db, Outcome)>)
    ensures var (next, pc') := WrittenOrRecovering(db, b, written);
            (if pc'.Finished? then (next, pc'.outcome) else Alone(next, pc')) == WriteOrRecover(db, b, written)
  {
    hide Recover, Alone;
    UninterruptedRecover(db, b);
  }

  /** Run back to back, the pieces of a call are exactly the tool of the one-at-a-time model. */
  lemma UninterruptedRecord(db: Db, b: Bundle)
    ensures Alone(db, RecordReading(b)) == Record(db, b)
  {
    hide Replay, PeriodGate, EvaluatePolicy, PolicyFrom, DuplicateMatches, Impact, GateOf, AnswerWithProposal;
    hide WriteProposal, WriteDirect, WriteOrRecover, WrittenOrRecovering, Alone;
    AlonePiece(db, RecordReading(b));
    UninterruptedGate(db, b);
    match GateOf(db, b)
    case Refuse(_) =>
    case Direct =>
      AlonePiece(db, RecordCommitting(b));
      UninterruptedWrite(db, b, WriteDirect(db, b));
    case Propose(policy, matches) =>
      AlonePiece(db, RecordLooking(b, policy, matches));
      AlonePiece(db, RecordProposing(b, policy, matches));
      UninterruptedWrite(db, b, WriteProposal(db, b, policy, matches));
  }

  /** The gate's three reads, back to back, are the gate. */
  lemma UninterruptedGate(db: Db, b: Bundle)
    ensures var gate := GateOf(db, b);
            Alone(db, RecordPeriod(b)) ==
            if gate.Refuse? then (db, Err(gate.failure))
            else if gate.Direct? then Alone(db, RecordCommitting(b))
            else Alone(db, RecordLooking(b, gate.policy, gate.duplicates))
  {
    hide PeriodGate, PolicyFrom, DuplicateMatches, Impact, Alone, Sort, FirstMatch;
    AlonePiece(db, RecordPeriod(b));
    if PeriodGate(db, b).Ok? {
      var force := PeriodGate(db, b).value;
      var policy := EvaluatePolicy(db, b, Impact(b.postings), force);
      AlonePiece(db, RecordPolicy(b, force));
      AlonePiece(db, RecordDuplicates(b, policy));
    }
  }

  /** The rule the policy loop selects, when nobody else runs meanwhile, is one that evaluation can select. */
  lemma QuietRuleSelectable(db: Db, b: Bundle)
    ensures Selectable(db, b, FirstMatch(db, Sort(RuleLe, ActiveRules(db.rules)), b))
  {
    hide Sort, RuleLe, FirstMatch, ActiveRules;
    EvaluationFindsGoverningRule(db, b);
    forall rule | Certain(db, rule, b) ensures Applies(db, rule, b) {
    }
  }

  lemma UninterruptedApprove(db: Db, a: DecisionIn)
    ensures Alone(db, ApproveReading(a)) == ApproveProposal(db, a)
  {
    hide WriteApproval, AlreadyApproved, ApprovalCount, PendingResponse, Alone;
    AlonePiece(db, ApproveReading(a));
    var found := FindProposalById(db.proposals, a.proposalId);
    if found.Some? {
      AlonePiece(db, ApproveChecking(a, found.value));
      AlonePiece(db, ApproveCounting(a, found.value));
      AlonePiece(db, ApproveWriting(a, found.value));
    }
  }

  lemma UninterruptedReject(db: Db, a: DecisionIn)
    ensures Alone(db, RejectReading(a)) == RejectProposal(db, a)
  {
    hide WriteRejection, Alone;
    AlonePiece(db, RejectReading(a));
    var found := FindProposalById(db.proposals, a.proposalId);
    if found.Some? {
      AlonePiece(db, RejectWriting(a, found.value));
    }
  }
}
