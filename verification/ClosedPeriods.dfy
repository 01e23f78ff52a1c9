/** When a row that is not an adjusting entry lands in a closed period, or one without an override in a locked one.
  Recording checks the period (src/capital_os/domain/periods/service.py); approving, possibly much later, does not
  (src/capital_os/domain/approval/service.py). */
module ClosedPeriods {
  import opened Wrappers
  import opened Ordering
  import opened LedgerTables
  import opened LedgerTools
  import opened LedgerInvariants
  import opened ProposalLifecycle
  import opened LedgerRuns
  import opened Samples

  // ------------------------------------------------------------------ what a period demands

  /** What recording demands of a bundle dated in a period of this status. */
  predicate Fits(b: Bundle, status: PeriodStatus) {
    match status
    case Open => true
    case Closed => b.isAdjusting
    case Locked => b.overrideLock
  }

  predicate HasStatus(db: Db, key: PeriodKey, entityId: string, status: PeriodStatus) {
    (key, entityId) in db.periods && db.periods[(key, entityId)] == status
  }

  predicate DatedIn(date: Timestamp, entityId: string, key: PeriodKey, entity: string) {
    PeriodOf(date) == key && entityId == entity
  }

  /** A pending proposal for the period that recording would now refuse, and whose key is not in the ledger. */
  predicate Waiting(db: Db, p: Proposal, key: PeriodKey, entityId: string, status: PeriodStatus) {
    && p in db.proposals && p.status == Pending
    && DatedIn(p.request.date, p.request.entityId, key, entityId)
    && !Fits(p.request, status)
    && FindRow(db.ledger, p.sourceSystem, p.externalId).None?
  }

  predicate NoneWaiting(db: Db, key: PeriodKey, entityId: string, status: PeriodStatus) {
    forall p :: p in db.proposals ==> !Waiting(db, p, key, entityId, status)
  }

  predicate NeverLocks(calls: seq<Call>, key: PeriodKey, entityId: string) {
    forall i :: 0 <= i < |calls| ==> calls[i] != LockPeriodCall(key, entityId)
  }

  /** The run adds this row, in this period. */
  predicate Lands(db: Db, calls: seq<Call>, row: LedgerRow, key: PeriodKey, entityId: string) {
    row in Run(db, calls).ledger && row !in db.ledger && DatedIn(row.date, row.entityId, key, entityId)
  }

  /** The proposal that vouches for the row does not meet the period's demand. */
  predicate Unfit(db: Db, row: LedgerRow, status: PeriodStatus) {
    exists p :: p in db.proposals && Vouches(db.postings, p, row) && !Fits(p.request, status)
  }

  // ------------------------------------------------------------------ what recording says

  /** Recording raises a period error exactly for a well-formed bundle whose key is not in the ledger, dated in a
    closed period without being an adjusting entry or in a locked one without an override; a pending proposal under
    the key makes no difference, and nothing changes. */
  lemma RecordRefusedExactly(db: Db, b: Bundle)
    requires Inv(db)
    ensures var shut := AllUsd(b.postings) && IsBalanced(b.postings)
            && FindRow(db.ledger, b.sourceSystem, b.externalId).None?;
            && (Record(db, b) == (db, Err(PeriodClosedRequiresAdjusting)) <==>
                  shut && HasStatus(db, PeriodOf(b.date), b.entityId, Closed) && !Fits(b, Closed))
            && (Record(db, b) == (db, Err(PeriodLocked)) <==>
                  shut && HasStatus(db, PeriodOf(b.date), b.entityId, Locked) && !Fits(b, Locked))
  {
    hide AllUsd, IsBalanced, EvaluatePolicy, DuplicateMatches, WriteDirect, WriteProposal, AnswerWithProposal;
    InvParts(db);
    ReplayReports(db, b.sourceSystem, b.externalId);
    NeverPeriodErrors(db, b);
  }

  lemma NeverPeriodErrors(db: Db, b: Bundle)
    ensures forall p, duplicates :: AnswerWithProposal(db, p, duplicates).1.Ok?
    ensures Recover(db, b).1.Ok? || Recover(db, b).1 == Err(IntegrityFailure)
    ensures WriteDirect(db, b).Some? ==> WriteDirect(db, b).value.1.Ok?
    ensures forall policy, duplicates :: WriteProposal(db, b, policy, duplicates).Some? ==>
              WriteProposal(db, b, policy, duplicates).value.1.Ok?
  {
  }

  // ------------------------------------------------------------------ where rows come from

  /** A row not committed directly was committed by approving a pending proposal whose key was free. */
  lemma ApprovedRowSource(db: Db, call: Call, row: LedgerRow) returns (p: Proposal)
    requires Inv(db) && row in Step(db, call).ledger && row !in db.ledger && !DirectRow(row)
    ensures p in db.proposals && p.status == Pending && FindRow(db.ledger, p.sourceSystem, p.externalId).None?
    ensures row.response.Some? && row.response.value.body.CommittedBody?
    ensures row.response.value.body.proposalId == Some(p.proposalId)
    ensures row == CommittedRow(p.request, row.transactionId, row.response.value)
  {
    hide Record, GateOf, WriteApproval, Inv, Settled;
    InvParts(db);
    match call {
      case RecordCall(b) => RecordShape(db, b);
      case ApproveCall(a) =>
        var found := FindProposalById(db.proposals, a.proposalId);
        p := found.value;
        InvGives(db, p);
        ApprovalRow(db, a, p, row);
      case RejectCall(_) =>
      case _ =>
    }
  }

  lemma ApprovalRow(db: Db, a: DecisionIn, p: Proposal, row: LedgerRow)
    requires IdsBelow(db) && RowsComplete(db) && p in db.proposals && RequestSound(p) && a.proposalId == p.proposalId
    requires row in WriteApproval(db, a, p).0.ledger && row !in db.ledger
    ensures FindRow(db.ledger, p.sourceSystem, p.externalId).None?
    ensures row.response.Some? && row.response.value.body.CommittedBody?
    ensures row.response.value.body.proposalId == Some(p.proposalId)
    ensures row == CommittedRow(p.request, row.transactionId, row.response.value)
  {
    hide Persist, InsertBundle, WriteCommit, ApprovalCount, PostingRows, Replay;
    var staged := WithApproval(db, a);
    var received := ApprovalCount(staged.decisions, p.proposalId, Required(p));
    assert IdsBelow(staged) && RowsComplete(staged);
    WriteCommitShape(staged, a, p, received);
  }

  // ------------------------------------------------------------------ with nothing waiting, nothing unfit lands

  lemma StatusKept(db: Db, call: Call, key: PeriodKey, entityId: string, status: PeriodStatus)
    requires Inv(db) && HasStatus(db, key, entityId, status) && status != Open
    requires status == Closed ==> call != LockPeriodCall(key, entityId)
    ensures HasStatus(Step(db, call), key, entityId, status)
  {
    hide Record, WriteApproval, RejectProposal, Inv;
    InvParts(db);
    match call {
      case RecordCall(b) => RecordShape(db, b);
      case ApproveCall(a) => ApproveKeepsPeriods(db, a);
      case RejectCall(a) => RejectKeepsPeriods(db, a);
      case _ =>
    }
  }

  lemma ApproveKeepsPeriods(db: Db, a: DecisionIn)
    ensures ApproveProposal(db, a).0.periods == db.periods
    ensures |ApproveProposal(db, a).0.proposals| == |db.proposals|
  {
    hide ApprovalCount, FindProposalById, HasDecision, Sort, PostingRows, FindRow, Replay;
  }

  lemma RejectKeepsPeriods(db: Db, a: DecisionIn)
    ensures RejectProposal(db, a).0.periods == db.periods
    ensures |RejectProposal(db, a).0.proposals| == |db.proposals|
  {
  }

  /** A proposal waiting after a step was waiting before it, or was just recorded. */
  lemma WaitedBefore(db: Db, next: Db, i: nat, key: PeriodKey, entityId: string, status: PeriodStatus)
    requires Extends(db, next) && i < |db.proposals| && Waiting(next, next.proposals[i], key, entityId, status)
    ensures Waiting(db, db.proposals[i], key, entityId, status)
  {
    assert Advances(db.proposals[i], next.proposals[i]);
    FreeBefore(db.ledger, next.ledger, db.proposals[i].sourceSystem, db.proposals[i].externalId);
  }

  lemma FreeBefore(ledger: seq<LedgerRow>, later: seq<LedgerRow>, sourceSystem: string, externalId: string)
    requires ledger <= later && FindRow(later, sourceSystem, externalId).None?
    ensures FindRow(ledger, sourceSystem, externalId).None?
  {
    assert forall r :: r in ledger ==> r in later;
  }

  lemma RecordAddsFit(db: Db, b: Bundle, i: nat, key: PeriodKey, entityId: string, status: PeriodStatus)
    requires Inv(db) && HasStatus(db, key, entityId, status) && status != Open
    requires |db.proposals| <= i < |Record(db, b).0.proposals|
    ensures !Waiting(Record(db, b).0, Record(db, b).0.proposals[i], key, entityId, status)
  {
    hide Record, EvaluatePolicy, DuplicateMatches, Inv;
    InvParts(db);
    RecordShape(db, b);
  }

  lemma NoneWaitingKept(db: Db, call: Call, key: PeriodKey, entityId: string, status: PeriodStatus)
    requires Inv(db) && HasStatus(db, key, entityId, status) && status != Open && NoneWaiting(db, key, entityId, status)
    ensures NoneWaiting(Step(db, call), key, entityId, status)
  {
    hide Record, ApproveProposal, RejectProposal, Inv, Waiting, Extends;
    var next := Step(db, call);
    StepExtends(db, call);
    ApproveSize(db, call);
    forall i: nat | i < |next.proposals| ensures !Waiting(next, next.proposals[i], key, entityId, status) {
      if i < |db.proposals| {
        if Waiting(next, next.proposals[i], key, entityId, status) {
          WaitedBefore(db, next, i, key, entityId, status);
        }
      } else {
        RecordAddsFit(db, call.bundle, i, key, entityId, status);
      }
    }
  }

  lemma ApproveSize(db: Db, call: Call)
    ensures !call.RecordCall? ==> |Step(db, call).proposals| == |db.proposals|
  {
    hide Record, ApproveProposal, RejectProposal;
    match call {
      case ApproveCall(a) => ApproveKeepsPeriods(db, a);
      case RejectCall(a) => RejectKeepsPeriods(db, a);
      case _ =>
    }
  }

  /** A proposal keeps its request for good. */
  lemma SameRequestLater(db: Db, end: Db, p: Proposal, q: Proposal)
    requires Extends(db, end) && ProposalKeysUnique(end.proposals)
    requires p in db.proposals && q in end.proposals && p.proposalId == q.proposalId
    ensures q.request == p.request
  {
    var i :| 0 <= i < |db.proposals| && db.proposals[i] == p;
    assert Advances(p, end.proposals[i]);
    FindProposalUnique(end.proposals, end.proposals[i]);
    FindProposalUnique(end.proposals, q);
  }

  lemma {:induction false} NothingUnfitLands(db: Db, calls: seq<Call>, row: LedgerRow, key: PeriodKey,
                                             entityId: string, status: PeriodStatus)
    requires Inv(db) && HasStatus(db, key, entityId, status) && status != Open && NoneWaiting(db, key, entityId, status)
    requires status == Closed ==> NeverLocks(calls, key, entityId)
    requires Lands(db, calls, row, key, entityId)
    ensures !Unfit(Run(db, calls), row, status) && !DirectRow(row)
    decreases |calls|
  {
    hide Inv, Step, Waiting, NoneWaiting, Extends, Vouches, DirectRow;
    ClosedPeriodsOnlyApproved(db, calls, row);
    var next, end := Step(db, calls[0]), Run(db, calls);
    StepKeepsInv(db, calls[0]);
    StatusKept(db, calls[0], key, entityId, status);
    NoneWaitingKept(db, calls[0], key, entityId, status);
    if row !in next.ledger {
      NothingUnfitLands(next, calls[1..], row, key, entityId, status);
    } else {
      var p := ApprovedRowSource(db, calls[0], row);
      assert !Waiting(db, p, key, entityId, status) by {
        NotWaiting(db, p, key, entityId, status);
      }
      FitsUnlessWaiting(db, p, row, key, entityId, status);
      RunKeepsInv(db, calls);
      RunExtends(db, calls);
      InvParts(end);
      forall q | q in end.proposals && Vouches(end.postings, q, row)
        ensures Fits(q.request, status)
      {
        VouchedId(end, q, row);
        SameRequestLater(db, end, p, q);
      }
    }
  }

  lemma NotWaiting(db: Db, p: Proposal, key: PeriodKey, entityId: string, status: PeriodStatus)
    requires NoneWaiting(db, key, entityId, status) && p in db.proposals
    ensures !Waiting(db, p, key, entityId, status)
  {
  }

  lemma FitsUnlessWaiting(db: Db, p: Proposal, row: LedgerRow, key: PeriodKey, entityId: string, status: PeriodStatus)
    requires p in db.proposals && p.status == Pending && FindRow(db.ledger, p.sourceSystem, p.externalId).None?
    requires row.response.Some? && row == CommittedRow(p.request, row.transactionId, row.response.value)
    requires DatedIn(row.date, row.entityId, key, entityId) && !Waiting(db, p, key, entityId, status)
    ensures Fits(p.request, status)
  {
  }

  lemma VouchedId(db: Db, q: Proposal, row: LedgerRow)
    requires Vouches(db.postings, q, row)
    ensures row.response.Some? && row.response.value.body.CommittedBody?
    ensures row.response.value.body.proposalId == Some(q.proposalId)
    ensures row == CommittedRow(q.request, row.transactionId, row.response.value)
  {
  }

  // ------------------------------------------------------------------ with something waiting, it can land

  lemma {:induction false} RunConcat(db: Db, a: seq<Call>, b: seq<Call>)
    ensures Run(db, a + b) == Run(Run(db, a), b)
    decreases |a|
  {
    hide Step;
    if a == [] {
      assert a + b == b;
    } else {
      assert (a + b)[1..] == a[1..] + b;
      RunConcat(Step(db, a[0]), a[1..], b);
    }
  }

  /** Adding every account a bundle posts to. */
  function AddAccounts(postings: seq<Posting>): seq<Call> {
    seq(|postings|, i requires 0 <= i < |postings| => AddAccount(postings[i].accountId))
  }

  lemma {:induction false} AccountsAdded(db: Db, postings: seq<Posting>)
    ensures Run(db, AddAccounts(postings)) == db.(accounts := db.accounts + set p | p in postings :: p.accountId)
    decreases |postings|
  {
    if postings != [] {
      var next := Step(db, AddAccount(postings[0].accountId));
      assert AddAccounts(postings)[1..] == AddAccounts(postings[1..]);
      AccountsAdded(next, postings[1..]);
      assert next.accounts + (set p | p in postings[1..] :: p.accountId) ==
             db.accounts + set p | p in postings :: p.accountId;
    }
  }

  /** The reference rows a stored request needs can always be supplied. */
  lemma MadeInsertable(db: Db, b: Bundle) returns (calls: seq<Call>)
    requires AllUsd(b.postings) && FindRow(db.ledger, b.sourceSystem, b.externalId).None?
    ensures Insertable(Run(db, calls), b)
    ensures forall i :: 0 <= i < |calls| ==> calls[i].AddEntity? || calls[i].AddAccount?
    ensures var next := Run(db, calls); next == db.(accounts := next.accounts, entities := next.entities)
  {
    calls := [AddEntity(b.entityId)] + AddAccounts(b.postings);
    var first := Step(db, AddEntity(b.entityId));
    assert calls[1..] == AddAccounts(b.postings);
    AccountsAdded(first, b.postings);
  }

  /** A name longer than every approver's so far. */
  function LongName(n: nat): string {
    seq(n + 1, _ => 'a')
  }

  predicate NamesShorter(decisions: seq<Decision>, n: nat) {
    forall d :: d in decisions && d.approverId.Some? ==> |d.approverId.value| <= n
  }

  lemma {:induction false} SomeBound(decisions: seq<Decision>) returns (n: nat)
    ensures NamesShorter(decisions, n)
  {
    if decisions == [] {
      n := 0;
    } else {
      n := SomeBound(decisions[1..]);
      if decisions[0].approverId.Some? && |decisions[0].approverId.value| > n {
        n := |decisions[0].approverId.value|;
      }
    }
  }

  function Signed(p: Proposal, n: nat): DecisionIn {
    DecisionIn(p.proposalId, Some(LongName(n)), None)
  }

  predicate SameTerms(p: Proposal, q: Proposal) {
    && q.proposalId == p.proposalId && q.request == p.request && q.requiredApprovals == p.requiredApprovals
    && q.sourceSystem == p.sourceSystem && q.externalId == p.externalId
  }

  /** The row an approval of `p` commits. */
  predicate From(p: Proposal, row: LedgerRow) {
    && row.response.Some? && row.response.value.body.CommittedBody?
    && row.response.value.body.proposalId == Some(p.proposalId)
    && row == CommittedRow(p.request, row.transactionId, row.response.value)
  }

  /** A fresh name gets through to the write. */
  lemma FreshNameWrites(db: Db, p: Proposal, n: nat)
    requires Inv(db) && p in db.proposals && p.status == Pending && NamesShorter(db.decisions, n)
    ensures var a := Signed(p, n);
            && !AlreadyApproved(db, a) && !DecisionClash(db, a) && Truthy(a.approverId)
            && ApproveProposal(db, a) == WriteApproval(db, a, p)
  {
    hide Inv, WriteApproval;
    InvParts(db);
    FindProposalUnique(db.proposals, p);
    assert |LongName(n)| == n + 1;
  }

  lemma NamesGrow(db: Db, p: Proposal, n: nat)
    requires NamesShorter(db.decisions, n)
    ensures NamesShorter(WithApproval(db, Signed(p, n)).decisions, n + 1)
  {
    assert |LongName(n)| == n + 1;
  }

  lemma StillInsertable(db: Db, a: DecisionIn, b: Bundle)
    requires Insertable(db, b)
    ensures Insertable(WithApproval(db, a), b)
    ensures WithApproval(db, a).ledger == db.ledger && WithApproval(db, a).nextId == db.nextId
  {
    hide FindRow;
  }

  lemma StagedParts(db: Db, p: Proposal, a: DecisionIn)
    requires Inv(db) && p in db.proposals && a.proposalId == p.proposalId
    ensures IdsBelow(WithApproval(db, a)) && RowsComplete(WithApproval(db, a))
  {
    InvParts(db);
    hide Inv, DecisionClash, Complete;
  }

  /** A fresh approval short of the quorum leaves the proposal pending, with one approval more. */
  lemma ApproveShort(db: Db, p: Proposal, n: nat) returns (q: Proposal)
    requires Inv(db) && p in db.proposals && p.status == Pending && Insertable(db, p.request)
    requires NamesShorter(db.decisions, n)
    requires |DecisionsOn(db.decisions, p.proposalId, Approve)| + 1 < p.requiredApprovals
    ensures var next := Step(db, ApproveCall(Signed(p, n)));
            && q in next.proposals && q.status == Pending && SameTerms(p, q)
            && Insertable(next, p.request) && NamesShorter(next.decisions, n + 1)
            && |DecisionsOn(next.decisions, p.proposalId, Approve)| ==
                |DecisionsOn(db.decisions, p.proposalId, Approve)| + 1
            && next.ledger == db.ledger
  {
    hide Inv, ApprovalCount, Settled, FindRow, NamesShorter, DecisionsOn, DecisionClash, DistinctApprovers;
    var a := Signed(p, n);
    InvParts(db);
    InvGives(db, p);
    FreshNameWrites(db, p, n);
    NamesGrow(db, p, n);
    ApprovalCounted(db, a, p);
    var staged := WithApproval(db, a);
    var received := ApprovalCount(staged.decisions, p.proposalId, Required(p));
    var response := PendingResponse(p, received);
    q := p.(status := Pending, response := Some(response), reason := a.reason, approvedTransaction := None);
    PersistEffect(db.proposals, p, Pending, response, a.reason, None);
    hide Persist;
    StillInsertable(db, a, p.request);
  }

  /** A fresh approval that makes the quorum commits the stored request. */
  lemma ApproveLast(db: Db, p: Proposal, n: nat) returns (row: LedgerRow)
    requires Inv(db) && p in db.proposals && p.status == Pending && Insertable(db, p.request)
    requires NamesShorter(db.decisions, n)
    requires |DecisionsOn(db.decisions, p.proposalId, Approve)| + 1 >= p.requiredApprovals
    ensures row in Step(db, ApproveCall(Signed(p, n))).ledger && row.transactionId == db.nextId
    ensures From(p, row)
  {
    hide Inv, ApprovalCount, Settled, Insertable, NamesShorter, DecisionsOn, DecisionClash, DistinctApprovers, Persist;
    hide WriteCommit, Sort, PostingRows;
    var a := Signed(p, n);
    InvParts(db);
    InvGives(db, p);
    FreshNameWrites(db, p, n);
    ApprovalCounted(db, a, p);
    StagedParts(db, p, a);
    StillInsertable(db, a, p.request);
    var staged := WithApproval(db, a);
    var received := ApprovalCount(staged.decisions, p.proposalId, Required(p));
    WriteCommitShape(staged, a, p, received);
    row := CommittedRow(p.request, db.nextId, ApprovalResponse(staged, p, received));
    assert row in Appended(staged, p.request, ApprovalResponse(staged, p, received)).ledger;
  }

  /** Fresh approvals, one after another, commit a pending proposal whose request can be inserted. */
  lemma {:induction false} ApprovalsCommit(db: Db, p: Proposal, n: nat) returns (calls: seq<Call>, row: LedgerRow)
    requires Inv(db) && p in db.proposals && p.status == Pending && Insertable(db, p.request)
    requires NamesShorter(db.decisions, n)
    ensures forall i :: 0 <= i < |calls| ==> calls[i].ApproveCall?
    ensures row in Run(db, calls).ledger && row !in db.ledger
    ensures From(p, row)
    decreases p.requiredApprovals - |DecisionsOn(db.decisions, p.proposalId, Approve)|
  {
    hide Inv, Insertable, NamesShorter, DecisionsOn, ApproveProposal, DirectRow;
    var call := ApproveCall(Signed(p, n));
    var next := Step(db, call);
    if |DecisionsOn(db.decisions, p.proposalId, Approve)| + 1 < p.requiredApprovals {
      var q := ApproveShort(db, p, n);
      StepKeepsInv(db, call);
      var more;
      more, row := ApprovalsCommit(next, q, n + 1);
      calls := [call] + more;
      assert calls[1..] == more;
    } else {
      row := ApproveLast(db, p, n);
      calls := [call];
      InvParts(db);
      assert Run(next, calls[1..]) == next;
    }
  }

  /** A waiting proposal can still be committed, without any lock. */
  lemma WaitingLands(db: Db, p: Proposal, key: PeriodKey, entityId: string, status: PeriodStatus)
      returns (calls: seq<Call>, row: LedgerRow)
    requires Inv(db) && Waiting(db, p, key, entityId, status)
    ensures NeverLocks(calls, key, entityId) && Lands(db, calls, row, key, entityId)
    ensures From(p, row)
    ensures exists q :: q in Run(db, calls).proposals && Vouches(Run(db, calls).postings, q, row)
  {
    hide Inv, Insertable, NamesShorter, Vouches, Run, Settled, FindRow, DirectRow;
    InvGives(db, p);
    var setup := MadeInsertable(db, p.request);
    RunKeepsInv(db, setup);
    var n := SomeBound(Run(db, setup).decisions);
    var approvals;
    approvals, row := ApprovalsCommit(Run(db, setup), p, n);
    calls := setup + approvals;
    RunConcat(db, setup, approvals);
    RunKeepsInv(db, calls);
    FromIsVouched(Run(db, calls), p, row);
    NoLockAmong(setup, approvals, key, entityId);
  }

  lemma NoLockAmong(a: seq<Call>, b: seq<Call>, key: PeriodKey, entityId: string)
    requires forall i :: 0 <= i < |a| ==> a[i].AddEntity? || a[i].AddAccount?
    requires forall i :: 0 <= i < |b| ==> b[i].ApproveCall?
    ensures NeverLocks(a + b, key, entityId)
  {
  }

  lemma FromIsVouched(db: Db, p: Proposal, row: LedgerRow)
    requires Inv(db) && From(p, row) && row in db.ledger
    ensures exists q :: q in db.proposals && Vouches(db.postings, q, row)
  {
    hide Inv, Vouches;
    RowVouched(db, row);
  }

  // ------------------------------------------------------------------ exactly

  /** From a state where a period is closed, some run that never locks it adds a row there that is not an adjusting
    entry if and only if such a proposal is already pending for it under a key the ledger does not have. */
  lemma ClosedPeriodTakesNonAdjustingExactly(db: Db, key: PeriodKey, entityId: string)
    requires Inv(db) && HasStatus(db, key, entityId, Closed)
    ensures (exists calls, row ::
               NeverLocks(calls, key, entityId) && Lands(db, calls, row, key, entityId) && !row.isAdjusting)
       <==> exists p :: Waiting(db, p, key, entityId, Closed)
  {
    hide Inv, Lands, Waiting, NeverLocks;
    if calls, row :| NeverLocks(calls, key, entityId) && Lands(db, calls, row, key, entityId) && !row.isAdjusting {
      if forall p :: !Waiting(db, p, key, entityId, Closed) {
        NothingUnfitLands(db, calls, row, key, entityId, Closed);
        AdjustingAsVouched(db, calls, row, key, entityId);
      }
    }
    if p :| Waiting(db, p, key, entityId, Closed) {
      var calls, row := WaitingLands(db, p, key, entityId, Closed);
      NotAdjusting(db, p, row, key, entityId);
    }
  }

  lemma NotAdjusting(db: Db, p: Proposal, row: LedgerRow, key: PeriodKey, entityId: string)
    requires Waiting(db, p, key, entityId, Closed)
    requires From(p, row)
    ensures !row.isAdjusting
  {
  }

  lemma AdjustingAsVouched(db: Db, calls: seq<Call>, row: LedgerRow, key: PeriodKey, entityId: string)
    requires Inv(db) && Lands(db, calls, row, key, entityId)
    requires !DirectRow(row) && !Unfit(Run(db, calls), row, Closed)
    ensures row.isAdjusting
  {
    hide Inv, DirectRow, Vouches;
    RunKeepsInv(db, calls);
    var end := Run(db, calls);
    RowVouched(end, row);
    var p :| p in end.proposals && Vouches(end.postings, p, row);
    VouchedId(end, p, row);
  }

  /** From a state where a period is locked, some run adds a row there committed from a request without an override if
    and only if such a proposal is already pending for it under a key the ledger does not have. */
  lemma LockedPeriodTakesNoOverrideExactly(db: Db, key: PeriodKey, entityId: string)
    requires Inv(db) && HasStatus(db, key, entityId, Locked)
    ensures (exists calls, row :: Lands(db, calls, row, key, entityId) && Unfit(Run(db, calls), row, Locked))
       <==> exists p :: Waiting(db, p, key, entityId, Locked)
  {
    hide Inv, Lands, Waiting, Unfit;
    if calls, row :| Lands(db, calls, row, key, entityId) && Unfit(Run(db, calls), row, Locked) {
      if forall p :: !Waiting(db, p, key, entityId, Locked) {
        NothingUnfitLands(db, calls, row, key, entityId, Locked);
      }
    }
    if p :| Waiting(db, p, key, entityId, Locked) {
      var calls, row := WaitingLands(db, p, key, entityId, Locked);
      UnfitAsVouched(db, calls, p, row, key, entityId);
    }
  }

  lemma UnfitAsVouched(db: Db, calls: seq<Call>, p: Proposal, row: LedgerRow, key: PeriodKey, entityId: string)
    requires Inv(db) && Waiting(db, p, key, entityId, Locked)
    requires From(p, row)
    requires exists q :: q in Run(db, calls).proposals && Vouches(Run(db, calls).postings, q, row)
    ensures Unfit(Run(db, calls), row, Locked)
  {
    hide Inv, Extends, Vouches;
    var end := Run(db, calls);
    var q :| q in end.proposals && Vouches(end.postings, q, row);
    VouchedId(end, q, row);
    RunKeepsInv(db, calls);
    RunExtends(db, calls);
    InvParts(end);
    SameRequestLater(db, end, p, q);
  }

  // ------------------------------------------------------------------ a run that does it

  const JANUARY := PeriodKey(2026, 1)

  /** Record the transfer, close its month, approve it: an ordinary row lands in the closed month. */
  lemma LateApprovalExample()
    ensures var before := [RecordCall(TRANSFER), ClosePeriodCall(JANUARY, "entity-default")];
            var calls := before + [ApproveCall(DecisionIn(1, Some("a"), None))];
            && Fresh(START) && HasStatus(Run(START, before), JANUARY, "entity-default", Closed)
            && (exists row :: Lands(Run(START, before), calls[2..], row, JANUARY, "entity-default")
                              && row in Run(START, calls).ledger && !row.isAdjusting)
  {
    var row := LandsAfter(ClosePeriodCall(JANUARY, "entity-default"));
  }

  /** Lock it instead: a row whose request carries no override lands in the locked month. */
  lemma LateApprovalAfterLockExample()
    ensures var before := [RecordCall(TRANSFER), LockPeriodCall(JANUARY, "entity-default")];
            var calls := before + [ApproveCall(DecisionIn(1, Some("a"), None))];
            && Fresh(START) && HasStatus(Run(START, before), JANUARY, "entity-default", Locked)
            && (exists row :: Lands(Run(START, before), calls[2..], row, JANUARY, "entity-default")
                              && Unfit(Run(START, calls), row, Locked))
  {
    var row := LandsAfter(LockPeriodCall(JANUARY, "entity-default"));
  }

  lemma LandsAfter(shut: Call) returns (row: LedgerRow)
    requires shut == ClosePeriodCall(JANUARY, "entity-default") || shut == LockPeriodCall(JANUARY, "entity-default")
    ensures var before := [RecordCall(TRANSFER), shut];
            var calls := before + [ApproveCall(DecisionIn(1, Some("a"), None))];
            && Fresh(START)
            && HasStatus(Run(START, before), JANUARY, "entity-default",
                         if shut.ClosePeriodCall? then Closed else Locked)
            && Lands(Run(START, before), calls[2..], row, JANUARY, "entity-default")
            && row in Run(START, calls).ledger && !row.isAdjusting && Unfit(Run(START, calls), row, Locked)
  {
    hide Inv, Insertable, Record, ApproveProposal, Vouches, DirectRow, GateOf, Unfit, Run, From;
    SampleProposes();
    FreshInv(START);
    RecordProposes(START, TRANSFER);
    var recorded := Step(START, RecordCall(TRANSFER));
    StepKeepsInv(START, RecordCall(TRANSFER));
    var db := Step(recorded, shut);
    StepKeepsInv(recorded, shut);
    var p := db.proposals[0];
    SampleRemains(db, p);
    var before, approve := [RecordCall(TRANSFER), shut], ApproveCall(DecisionIn(1, Some("a"), None));
    row := SampleCommits(db, p);
    RunTwice(START, RecordCall(TRANSFER), shut);
    RunOnce(db, approve);
    RunConcat(START, before, [approve]);
    RunKeepsInv(db, [approve]);
    FromIsVouched(Run(db, [approve]), p, row);
    UnfitAsVouched(db, [approve], p, row, JANUARY, "entity-default");
    SampleRow(p, row);
  }

  lemma SampleCommits(db: Db, p: Proposal) returns (row: LedgerRow)
    requires Inv(db) && p in db.proposals && p.status == Pending && Insertable(db, p.request)
    requires p.proposalId == 1 && p.requiredApprovals == 1 && db.decisions == []
    ensures row in Step(db, ApproveCall(DecisionIn(1, Some("a"), None))).ledger && row !in db.ledger && From(p, row)
  {
    hide Inv, Insertable, ApproveProposal, DirectRow;
    InvParts(db);
    row := ApproveLast(db, p, 0);
    assert LongName(0) == "a";
  }

  lemma SampleRow(p: Proposal, row: LedgerRow)
    requires From(p, row) && p.request == Canonical(TRANSFER)
    ensures DatedIn(row.date, row.entityId, JANUARY, "entity-default") && !row.isAdjusting
  {
  }

  lemma SampleRemains(db: Db, p: Proposal)
    requires db.ledger == [] && db.entities == START.entities && db.accounts == START.accounts
    requires p.request == Canonical(TRANSFER)
    ensures Insertable(db, p.request)
  {
  }

  lemma RunOnce(db: Db, call: Call)
    ensures Run(db, [call]) == Step(db, call)
  {
    hide Step;
    assert [call][1..] == [];
    assert Run(Step(db, call), []) == Step(db, call);
  }

  lemma RunTwice(db: Db, first: Call, second: Call)
    ensures Run(db, [first, second]) == Step(Step(db, first), second)
  {
    hide Step;
    assert [first, second][1..] == [second];
    RunOnce(Step(db, first), second);
  }
}
