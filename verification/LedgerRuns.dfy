/** Whole runs of the ledger tools, one call at a time: what every run keeps, what never changes again, and how
  every ledger row was earned. */
module LedgerRuns {
  import opened Wrappers
  import opened Ordering
  import opened Money
  import opened Calendar
  import opened LedgerTables
  import opened LedgerTools
  import opened LedgerInvariants
  import opened ProposalLifecycle
  import opened ApprovalGate

  // ------------------------------------------------------------------ the invariant over runs

  lemma StepKeepsInv(db: Db, call: Call)
    requires Inv(db)
    ensures Inv(Step(db, call))
  {
    hide Record, ApproveProposal, RejectProposal;
    match call
    case RecordCall(b) => RecordKeepsInv(db, b);
    case ApproveCall(a) => ApproveKeepsInv(db, a);
    case RejectCall(a) => RejectKeepsInv(db, a);
    case _ => LedgerFrame(db, Step(db, call));
  }

  /** Every run from a consistent database stays consistent. */
  lemma {:induction false} RunKeepsInv(db: Db, calls: seq<Call>)
    requires Inv(db)
    ensures Inv(Run(db, calls))
    decreases |calls|
  {
    hide Inv, Step;
    if calls != [] {
      StepKeepsInv(db, calls[0]);
      RunKeepsInv(Step(db, calls[0]), calls[1..]);
    }
  }

  /** After any run of a fresh database, and for every day, the balances of all accounts sum to zero. */
  lemma TrialBalanceOverRuns(db: Db, calls: seq<Call>, names: seq<string>, asOf: Day)
    requires Fresh(db) && multiset(names) == multiset(Run(db, calls).accounts)
    ensures SumBy(BalanceOn(Run(db, calls), asOf), names) == 0
  {
    FreshInv(db);
    RunKeepsInv(db, calls);
    TrialBalance(Run(db, calls), names, asOf);
  }

  /** After any run of a fresh database every proposal is settled: a pending one has too few approvals, a committed
    one exactly its quorum and a ledger row under its own key, a rejected one a single rejection. */
  lemma ProposalsSettledOverRuns(db: Db, calls: seq<Call>, p: Proposal)
    requires Fresh(db) && p in Run(db, calls).proposals
    ensures var end := Run(db, calls); Settled(end.decisions, end.ledger, p) && RequestSound(p)
  {
    FreshInv(db);
    RunKeepsInv(db, calls);
    InvGives(Run(db, calls), p);
  }

  // ------------------------------------------------------------------ what never changes again

  /** A proposal's later form: the same request, and the very same row once it has left Pending. */
  predicate Advances(p: Proposal, q: Proposal) {
    && q == p.(status := q.status, response := q.response, reason := q.reason,
               approvedTransaction := q.approvedTransaction)
    && (p.status != Pending ==> q == p)
  }

  function Rank(s: PeriodStatus): nat {
    match s
    case Open => 0
    case Closed => 1
    case Locked => 2
  }

  predicate PeriodsAdvance(a: Db, b: Db) {
    forall k :: k in a.periods ==> k in b.periods && Rank(a.periods[k]) <= Rank(b.periods[k])
  }

  predicate ProposalsAdvance(p: seq<Proposal>, q: seq<Proposal>) {
    |p| <= |q| && forall i :: 0 <= i < |p| ==> Advances(p[i], q[i])
  }

  /** No transaction gains or loses a leg. */
  predicate LegsKept(a: Db, b: Db) {
    forall r :: r in a.ledger ==> RowsFor(b.postings, r.transactionId) == RowsFor(a.postings, r.transactionId)
  }

  /** `b` is a later state than `a`: tables only grow, rows keep their legs, settled proposals stay, periods only
    advance. */
  predicate Extends(a: Db, b: Db) {
    && LegsKept(a, b)
    && a.ledger <= b.ledger && a.postings <= b.postings && a.decisions <= b.decisions
    && ProposalsAdvance(a.proposals, b.proposals)
    && PeriodsAdvance(a, b)
  }

  lemma ExtendsTransitive(a: Db, b: Db, c: Db)
    requires Extends(a, b) && Extends(b, c)
    ensures Extends(a, c)
  {
    forall k | k in a.periods
      ensures k in c.periods && Rank(a.periods[k]) <= Rank(c.periods[k])
    {
      assert k in b.periods;
    }
    forall i | 0 <= i < |a.proposals|
      ensures Advances(a.proposals[i], c.proposals[i])
    {
      assert Advances(a.proposals[i], b.proposals[i]) && Advances(b.proposals[i], c.proposals[i]);
    }
  }

  lemma PersistAdvances(proposals: seq<Proposal>, p: Proposal, updated: Proposal)
    requires ProposalKeysUnique(proposals) && p in proposals && p.status == Pending && updated.response.Some?
    ensures ProposalsAdvance(proposals, Persist(proposals, p.proposalId, updated.status, updated.response.value,
                                                updated.reason, updated.approvedTransaction))
  {
    var next :=
        Persist(proposals, p.proposalId, updated.status, updated.response.value, updated.reason,
                updated.approvedTransaction);
    var k :| 0 <= k < |proposals| && proposals[k] == p;
    forall i | 0 <= i < |proposals|
      ensures Advances(proposals[i], next[i])
    {
      if i != k {
        assert proposals[i].proposalId != p.proposalId;
      }
    }
  }

  lemma RecordExtends(db: Db, b: Bundle)
    requires Inv(db)
    ensures Extends(db, Record(db, b).0)
  {
    hide Record, GateOf, RowsFor, Sort, PostingRows;
    InvParts(db);
    RecordShape(db, b);
    AppendKeepsLegs(db, b, DirectResponse(db, b));
  }

  lemma AppendKeepsLegs(db: Db, b: Bundle, response: Response)
    requires IdsBelow(db)
    ensures LegsKept(db, Appended(db, b, response))
  {
    hide RowsFor, Sort, PostingRows;
    forall r | r in db.ledger
      ensures RowsFor(Appended(db, b, response).postings, r.transactionId) == RowsFor(db.postings, r.transactionId)
    {
      AppendedRows(db, b, response, r.transactionId);
    }
  }

  lemma WriteApprovalExtends(db: Db, a: DecisionIn, p: Proposal)
    requires Inv(db) && p in db.proposals && p.status == Pending && a.proposalId == p.proposalId
    ensures Extends(db, WriteApproval(db, a, p).0)
  {
    hide Persist, InsertBundle, WriteCommit, ApprovalCount, Settled, PostingRows, Replay, Insertable, RowsFor, Sort;
    hide Inv;
    InvParts(db);
    var staged := WithApproval(db, a);
    var received := ApprovalCount(staged.decisions, p.proposalId, Required(p));
    if received < Required(p) {
      PersistAdvances(db.proposals, p,
                      p.(status := Pending, response := Some(PendingResponse(p, received)), reason := a.reason,
                                          approvedTransaction := None));
    } else {
      var inserted := ApprovalResponse(staged, p, received);
      PersistAdvances(db.proposals, p, ApprovedWith(p, inserted, a.reason));
      assert IdsBelow(staged) && RowsComplete(staged);
      WriteCommitShape(staged, a, p, received);
      AppendKeepsLegs(staged, p.request, inserted);
      if Insertable(staged, p.request) {
      } else if Replay(staged.ledger, p.request.sourceSystem, p.request.externalId).Some? {
        var adopted :=
            AdoptionResponse(p, Replay(staged.ledger, p.request.sourceSystem, p.request.externalId).value, received);
        PersistAdvances(db.proposals, p, ApprovedWith(p, adopted, a.reason));
      }
    }
  }

  lemma AlwaysAnswered(db: Db, p: Proposal)
    requires Inv(db) && p in db.proposals
    ensures p.response.Some? && 1 <= p.requiredApprovals
  {
    InvGives(db, p);
  }

  lemma PendingUnlessRefused(db: Db, p: Proposal)
    requires Inv(db) && p in db.proposals && RejectRead(p).None?
    ensures p.status == Pending
  {
    InvGives(db, p);
  }

  lemma RejectExtends(db: Db, a: DecisionIn)
    requires Inv(db)
    ensures Extends(db, RejectProposal(db, a).0)
  {
    hide Persist, Inv, Settled, RequestSound, RowsComplete, ProposalsSettled;
    InvParts(db);
    var found := FindProposalById(db.proposals, a.proposalId);
    if found.Some? && RejectRead(found.value).None? {
      var p := found.value;
      PendingUnlessRefused(db, p);
      InvGives(db, p);
      PersistAdvances(db.proposals, p, p.(status := Refused, reason := a.reason, approvedTransaction := None,
        response := Some(Respond(Rejected, RejectedBody(p.proposalId, a.reason, p.correlationId)))));
    }
  }

  lemma StepExtends(db: Db, call: Call)
    requires Inv(db)
    ensures Extends(db, Step(db, call))
  {
    hide Record, WriteApproval, RejectProposal, Inv;
    match call
    case RecordCall(b) => RecordExtends(db, b);
    case ApproveCall(a) =>
      var found := FindProposalById(db.proposals, a.proposalId);
      if found.Some? && ApproveRead(found.value, a).None? {
        WriteApprovalExtends(db, a, found.value);
      }
    case RejectCall(a) => RejectExtends(db, a);
    case _ =>
  }

  /** Over any run the ledger only grows, a settled proposal is never touched again, and periods only advance. */
  lemma {:induction false} RunExtends(db: Db, calls: seq<Call>)
    requires Inv(db)
    ensures Extends(db, Run(db, calls))
    decreases |calls|
  {
    hide Inv, Step, Extends;
    if calls == [] {
      SelfExtends(db);
    } else {
      StepKeepsInv(db, calls[0]);
      StepExtends(db, calls[0]);
      RunExtends(Step(db, calls[0]), calls[1..]);
      ExtendsTransitive(db, Step(db, calls[0]), Run(db, calls));
    }
  }

  lemma SelfExtends(db: Db)
    ensures Extends(db, db)
  {
  }

  /** Once a key is in the ledger, recording under it at any later time returns the saved transaction, postings and
    hash, and changes nothing. */
  lemma StableReplay(db: Db, calls: seq<Call>, row: LedgerRow, b: Bundle)
    requires Inv(db) && row in db.ledger && HasKey(row, b.sourceSystem, b.externalId)
    requires AllUsd(b.postings) && IsBalanced(b.postings)
    ensures row.response.Some?
    ensures var later := Run(db, calls);
            Record(later, b) == (later, Ok(row.response.value.(status := IdempotentReplay)))
  {
    var later := Run(db, calls);
    RunKeepsInv(db, calls);
    RunExtends(db, calls);
    InvParts(db);
    InvParts(later);
    assert row in later.ledger;
    FindRowUnique(later.ledger, row);
    assert Complete(db.postings, row);
  }

  /** Rejected is final: no later call changes the proposal, and approving it always fails. */
  lemma RejectionFinal(db: Db, calls: seq<Call>, i: nat, a: DecisionIn)
    requires Inv(db) && i < |db.proposals| && db.proposals[i].status == Refused
    requires a.proposalId == db.proposals[i].proposalId
    ensures var later := Run(db, calls);
            && i < |later.proposals| && later.proposals[i] == db.proposals[i]
            && ApproveProposal(later, a) == (later, Err(RejectedCannotBeApproved))
  {
    hide Inv;
    var later := Run(db, calls);
    RunKeepsInv(db, calls);
    RunExtends(db, calls);
    InvParts(later);
    assert Advances(db.proposals[i], later.proposals[i]);
    FindProposalUnique(later.proposals, later.proposals[i]);
  }

  /** Committed is final too: approving again answers with the same commit, and rejecting always fails. */
  lemma CommitFinal(db: Db, calls: seq<Call>, i: nat, a: DecisionIn)
    requires Inv(db) && i < |db.proposals| && db.proposals[i].status == Approved
    requires a.proposalId == db.proposals[i].proposalId
    requires db.proposals[i].requiredApprovals > 1 ==> Truthy(a.approverId)
    ensures var later := Run(db, calls);
            && i < |later.proposals| && later.proposals[i] == db.proposals[i]
            && db.proposals[i].response.Some?
            && ApproveProposal(later, a) == (later, Ok(db.proposals[i].response.value))
            && RejectProposal(later, a) == (later, Err(CommittedCannotBeRejected))
  {
    hide Inv, Settled, Run, DecisionsOn;
    var later := Run(db, calls);
    RunKeepsInv(db, calls);
    RunExtends(db, calls);
    InvParts(later);
    AlwaysAnswered(db, db.proposals[i]);
    assert Advances(db.proposals[i], later.proposals[i]);
    FindProposalUnique(later.proposals, later.proposals[i]);
  }

  // ------------------------------------------------------------------ how rows get into the ledger

  /** The bundle a direct row was recorded from passed the gate in the state it was recorded in. */
  ghost predicate EarnedDirectly(db: Db, call: Call, row: LedgerRow) {
    && call.RecordCall?
    && GateOpen(db, call.bundle)
    && Insertable(db, call.bundle)
    && AllUsd(call.bundle.postings) && IsBalanced(call.bundle.postings)
    && row == CommittedRow(call.bundle, db.nextId, DirectResponse(db, call.bundle))
  }

  /** One call adds at most one row; a row not committed by approval passed the gate. */
  lemma StepEarns(db: Db, call: Call, row: LedgerRow)
    requires Inv(db) && row in Step(db, call).ledger && row !in db.ledger && DirectRow(row)
    ensures EarnedDirectly(db, call, row)
    ensures RowsFor(Step(db, call).postings, row.transactionId) == LegsOf(call.bundle, row.transactionId)
  {
    hide Record, GateOf, GateOpen, WriteApproval, RowsFor, LegsOf, Inv;
    InvParts(db);
    match call
    case RecordCall(b) =>
      RecordShape(db, b);
      GateSound(db, b);
      AppendedRows(db, b, DirectResponse(db, b), db.nextId);
    case ApproveCall(a) =>
      var found := FindProposalById(db.proposals, a.proposalId);
      assert found.Some? && ApproveRead(found.value, a).None? && !AlreadyApproved(db, a);
      ApprovalRowsNotDirect(db, a, found.value, row);
    case RejectCall(a) =>
    case _ =>
  }

  lemma ApprovalRowsNotDirect(db: Db, a: DecisionIn, p: Proposal, row: LedgerRow)
    requires IdsBelow(db) && RowsComplete(db) && p in db.proposals && a.proposalId == p.proposalId
    requires row in WriteApproval(db, a, p).0.ledger && row !in db.ledger
    ensures !DirectRow(row)
  {
    hide Persist, InsertBundle, WriteCommit, ApprovalCount, PostingRows, Replay, Insertable;
    var staged := WithApproval(db, a);
    var received := ApprovalCount(staged.decisions, p.proposalId, Required(p));
    assert IdsBelow(staged) && RowsComplete(staged);
    WriteCommitShape(staged, a, p, received);
  }

  /** The run recorded this row from call k's bundle, through an open gate, and it still holds exactly that
    bundle's legs. */
  ghost predicate RecordedBy(db: Db, calls: seq<Call>, k: nat, row: LedgerRow)
    requires k < |calls|
  {
    && EarnedDirectly(Run(db, calls[..k]), calls[k], row)
    && RowsFor(Run(db, calls).postings, row.transactionId) == LegsOf(calls[k].bundle, row.transactionId)
  }

  /** In every run of a fresh database each ledger row was earned: some call of the run recorded it through an open
    gate, or an approved proposal with its full quorum vouches for it. Either way it holds the legs asked for. */
  lemma {:induction false} EveryRowEarned(db: Db, calls: seq<Call>, row: LedgerRow)
    requires Fresh(db) && row in Run(db, calls).ledger
    ensures || (exists k: nat :: k < |calls| && RecordedBy(db, calls, k, row))
            || (exists p :: p in Run(db, calls).proposals && Vouches(Run(db, calls).postings, p, row)
                            && |DecisionsOn(Run(db, calls).decisions, p.proposalId, Approve)| == p.requiredApprovals)
  {
    hide Inv, Step, RecordedBy;
    FreshInv(db);
    RunKeepsInv(db, calls);
    var end := Run(db, calls);
    RowVouched(end, row);
    if !DirectRow(row) {
      var p :| p in end.proposals && Vouches(end.postings, p, row);
      InvGives(end, p);
    } else {
      DirectRowEarned(db, calls, row);
    }
  }

  lemma RowVouched(db: Db, row: LedgerRow)
    requires Inv(db) && row in db.ledger
    ensures DirectRow(row) || exists p :: p in db.proposals && Vouches(db.postings, p, row)
  {
  }

  lemma {:induction false} RunAppend(db: Db, calls: seq<Call>, call: Call)
    ensures Run(db, calls + [call]) == Step(Run(db, calls), call)
    decreases |calls|
  {
    hide Step;
    if calls == [] {
      assert calls + [call] == [call];
      assert Run(Step(db, call), [call][1..]) == Step(db, call);
    } else {
      assert (calls + [call])[1..] == calls[1..] + [call];
      RunAppend(Step(db, calls[0]), calls[1..], call);
    }
  }

  lemma {:induction false} DirectRowEarned(db: Db, calls: seq<Call>, row: LedgerRow)
    requires Inv(db) && DirectRow(row) && row in Run(db, calls).ledger && row !in db.ledger
    ensures exists k: nat :: k < |calls| && RecordedBy(db, calls, k, row)
    decreases |calls|
  {
    hide Inv, Step, EarnedDirectly, DirectRow, RowsFor, LegsOf;
    assert calls != [];
    var n := |calls| - 1;
    var before := Run(db, calls[..n]);
    assert calls == calls[..n] + [calls[n]];
    RunAppend(db, calls[..n], calls[n]);
    RunKeepsInv(db, calls[..n]);
    if row in before.ledger {
      DirectRowEarned(db, calls[..n], row);
      var k: nat :| k < n && RecordedBy(db, calls[..n], k, row);
      assert calls[..n][..k] == calls[..k];
      StepExtends(before, calls[n]);
      assert RecordedBy(db, calls, k, row);
    } else {
      StepEarns(before, calls[n], row);
      assert RecordedBy(db, calls, n, row);
    }
  }

  lemma EarnedNeedsOpen(db: Db, call: Call, row: LedgerRow)
    requires EarnedDirectly(db, call, row)
    ensures PeriodOpen(db, PeriodOf(row.date), row.entityId)
  {
    hide PolicyAdmits;
    assert row.date == call.bundle.date && row.entityId == call.bundle.entityId;
  }

  lemma StaysClosed(a: Db, b: Db, key: PeriodKey, entityId: string)
    requires Extends(a, b)
    ensures PeriodOpen(b, key, entityId) ==> PeriodOpen(a, key, entityId)
  {
  }

  /** From the moment a period is closed or locked, no run ever commits a row in it without approval. */
  lemma {:induction false} ClosedPeriodsOnlyApproved(db: Db, calls: seq<Call>, row: LedgerRow)
    requires Inv(db) && row in Run(db, calls).ledger && row !in db.ledger
    requires !PeriodOpen(db, PeriodOf(row.date), row.entityId)
    ensures !DirectRow(row)
  {
    hide Inv, EarnedDirectly, Extends, PeriodOpen, DirectRow;
    if DirectRow(row) {
      DirectRowEarned(db, calls, row);
      var k: nat :| k < |calls| && RecordedBy(db, calls, k, row);
      RunExtends(db, calls[..k]);
      EarnedNeedsOpen(Run(db, calls[..k]), calls[k], row);
      StaysClosed(db, Run(db, calls[..k]), PeriodOf(row.date), row.entityId);
    }
  }

  /** A closed period stays at least closed, and a locked one locked, over any run. */
  lemma PeriodCallsLand(db: Db, key: PeriodKey, entityId: string, calls: seq<Call>)
    requires Inv(db)
    ensures !PeriodOpen(Run(Step(db, ClosePeriodCall(key, entityId)), calls), key, entityId)
    ensures var later := Run(Step(db, LockPeriodCall(key, entityId)), calls);
            (key, entityId) in later.periods && later.periods[(key, entityId)] == Locked
  {
    var closed, locked := Step(db, ClosePeriodCall(key, entityId)), Step(db, LockPeriodCall(key, entityId));
    assert !PeriodOpen(closed, key, entityId);
    assert (key, entityId) in locked.periods && locked.periods[(key, entityId)] == Locked;
    StepKeepsInv(db, ClosePeriodCall(key, entityId));
    StepKeepsInv(db, LockPeriodCall(key, entityId));
    hide Inv, Run, Step, LegsKept, ProposalsAdvance;
    RunExtends(closed, calls);
    RunExtends(locked, calls);
  }

  /** Once a month is closed or locked for an entity, no run ever commits a row of that entity dated in that month
    without approval. */
  lemma ShutMonthOnlyApproved(db: Db, year: int, month: int, entityId: string, locks: bool, calls: seq<Call>,
                              row: LedgerRow)
    requires Inv(db)
    requires var key := PeriodKey(year, month);
             var start := Step(db, if locks then LockPeriodCall(key, entityId) else ClosePeriodCall(key, entityId));
             row in Run(start, calls).ledger && row !in db.ledger
    requires row.date.day.year == year && row.date.day.month == month && row.entityId == entityId
    ensures row.response.Some? && row.response.value.body.CommittedBody? && row.response.value.body.proposalId.Some?
  {
    var key := PeriodKey(year, month);
    var call := if locks then LockPeriodCall(key, entityId) else ClosePeriodCall(key, entityId);
    var start := Step(db, call);
    StepKeepsInv(db, call);
    PeriodCallsLand(db, key, entityId, []);
    assert Run(start, []) == start && !PeriodOpen(start, key, entityId);
    hide Inv, Run;
    ClosedPeriodsOnlyApproved(start, calls, row);
    RunKeepsInv(start, calls);
    RowComplete(Run(start, calls), row);
  }

  lemma RowComplete(db: Db, row: LedgerRow)
    requires Inv(db) && row in db.ledger
    ensures row.response.Some? && row.response.value.body.CommittedBody?
  {
    InvParts(db);
    assert Complete(db.postings, row);
  }

  // ------------------------------------------------------------------ duplicate risk over runs

  predicate SameDayContained(db: Db, earlier: LedgerRow, later: LedgerRow) {
    var keys := RowKeys(db.postings, later.transactionId);
    earlier.date.day == later.date.day && keys != {} && keys <= RowKeys(db.postings, earlier.transactionId)
  }

  /** A row that repeats an earlier row of its day was committed by approval. */
  predicate DuplicatesApproved(db: Db) {
    forall i, j :: 0 <= i < j < |db.ledger| && SameDayContained(db, db.ledger[i], db.ledger[j]) ==>
        !DirectRow(db.ledger[j])
  }

  lemma RowKeysConcat(a: seq<PostingRow>, b: seq<PostingRow>, id: nat)
    ensures RowKeys(a + b, id) == RowKeys(a, id) + RowKeys(b, id)
  {
  }

  lemma RowKeysFresh(postings: seq<Posting>, owner: nat, first: nat, id: nat)
    ensures RowKeys(PostingRows(postings, owner, first), id) == if id == owner then MatchKeys(postings) else {}
  {
    var rows := PostingRows(postings, owner, first);
    if id == owner {
      forall k | k in MatchKeys(postings)
        ensures k in RowKeys(rows, id)
      {
        var p :| p in postings && (p.accountId, Units(p)) == k;
        var i :| 0 <= i < |postings| && postings[i] == p;
        assert rows[i] in rows;
      }
    }
  }

  /** A committed bundle posts exactly its own pairs, and no other transaction's pairs change. */
  lemma RowKeysAppend(db: Db, next: Db, b: Bundle, id: nat)
    requires IdsBelow(db)
    requires next.postings == db.postings + PostingRows(Sort(PostingLe, b.postings), db.nextId, db.nextId + 1)
    ensures id < db.nextId ==> RowKeys(next.postings, id) == RowKeys(db.postings, id)
    ensures id == db.nextId ==> RowKeys(next.postings, id) == MatchKeys(b.postings)
  {
    hide PostingRows;
    var postings := Sort(PostingLe, b.postings);
    SortedPostings(b);
    assert MatchKeys(postings) == MatchKeys(b.postings);
    RowKeysConcat(db.postings, PostingRows(postings, db.nextId, db.nextId + 1), id);
    RowKeysFresh(postings, db.nextId, db.nextId + 1, id);
    if id == db.nextId {
      assert RowKeys(db.postings, id) == {};
    }
  }

  lemma GrownDuplicates(db: Db, next: Db, b: Bundle, response: Response)
    requires IdsBelow(db) && DuplicatesApproved(db)
    requires next.ledger == db.ledger + [CommittedRow(b, db.nextId, response)]
    requires next.postings == db.postings + PostingRows(Sort(PostingLe, b.postings), db.nextId, db.nextId + 1)
    requires DirectRow(CommittedRow(b, db.nextId, response)) ==>
               forall r :: !Duplicates(db, r, b.date, MatchKeys(b.postings))
    ensures DuplicatesApproved(next)
  {
    var n := |db.ledger|;
    forall i, j | 0 <= i < j < |next.ledger| && SameDayContained(next, next.ledger[i], next.ledger[j])
      ensures !DirectRow(next.ledger[j])
    {
      RowKeysAppend(db, next, b, next.ledger[i].transactionId);
      RowKeysAppend(db, next, b, next.ledger[j].transactionId);
      if j == n {
        assert Duplicates(db, next.ledger[i], b.date, MatchKeys(b.postings)) by {
          assert next.ledger[i] == db.ledger[i];
        }
      } else {
        assert SameDayContained(db, db.ledger[i], db.ledger[j]);
      }
    }
  }

  lemma RecordKeepsDuplicates(db: Db, b: Bundle)
    requires Inv(db) && DuplicatesApproved(db)
    ensures DuplicatesApproved(Record(db, b).0)
  {
    hide Record, Inv, EvaluatePolicy, DuplicateMatches, PeriodGate, Duplicates, PostingRows, Sort;
    InvParts(db);
    RecordShape(db, b);
    var next := Record(db, b).0;
    if next != db && GateOf(db, b) == Direct {
      DuplicatesExactly(db, b);
      GrownDuplicates(db, next, b, DirectResponse(db, b));
    }
  }

  lemma ApproveKeepsDuplicates(db: Db, a: DecisionIn, p: Proposal)
    requires Inv(db) && DuplicatesApproved(db) && p in db.proposals && a.proposalId == p.proposalId
    ensures DuplicatesApproved(WriteApproval(db, a, p).0)
  {
    hide Persist, InsertBundle, WriteCommit, ApprovalCount, PostingRows, Sort, Replay, Insertable, Inv, Duplicates;
    InvParts(db);
    var staged := WithApproval(db, a);
    var received := ApprovalCount(staged.decisions, p.proposalId, Required(p));
    assert IdsBelow(staged) && RowsComplete(staged);
    WriteCommitShape(staged, a, p, received);
    if received >= Required(p) && Insertable(staged, p.request) {
      var inserted := ApprovalResponse(staged, p, received);
      GrownDuplicates(db, Appended(staged, p.request, inserted), p.request, inserted);
    }
  }

  lemma StepKeepsDuplicates(db: Db, call: Call)
    requires Inv(db) && DuplicatesApproved(db)
    ensures DuplicatesApproved(Step(db, call))
  {
    hide Record, WriteApproval, Inv;
    match call
    case RecordCall(b) => RecordKeepsDuplicates(db, b);
    case ApproveCall(a) =>
      var found := FindProposalById(db.proposals, a.proposalId);
      if found.Some? {
        ApproveKeepsDuplicates(db, a, found.value);
      }
    case _ =>
  }

  /** Over any run: of two rows of one UTC day, if the later posts only (account, amount) pairs the earlier also
    posted, the later was committed by approval. */
  lemma {:induction false} DuplicatesApprovedOverRuns(db: Db, calls: seq<Call>)
    requires Inv(db) && DuplicatesApproved(db)
    ensures DuplicatesApproved(Run(db, calls))
    decreases |calls|
  {
    hide Inv, Step, DuplicatesApproved;
    if calls != [] {
      StepKeepsInv(db, calls[0]);
      StepKeepsDuplicates(db, calls[0]);
      DuplicatesApprovedOverRuns(Step(db, calls[0]), calls[1..]);
    }
  }
}
