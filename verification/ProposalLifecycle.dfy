/** The invariant of proposals, decisions and the ledger together, and that each write tool keeps it when calls
  run one at a time. */
module ProposalLifecycle {
  import opened Wrappers
  import opened Ordering
  import opened Money
  import opened Calendar
  import opened LedgerTables
  import opened LedgerTools
  import opened LedgerInvariants

  // ------------------------------------------------------------------ the invariant

  /** Every approval is named, and no approver appears twice. */
  predicate DistinctApprovers(s: seq<Decision>) {
    && (forall i :: 0 <= i < |s| ==> s[i].approverId.Some?)
    && (forall i, j :: 0 <= i < j < |s| ==> s[i].approverId != s[j].approverId)
  }

  /** A response that reports this ledger row: its transaction, its postings and its saved hash. */
  predicate Reports(response: Response, row: LedgerRow) {
    && response.body.CommittedBody?
    && response.body.transactionId == row.transactionId
    && row.response.Some?
    && row.response.value.body.CommittedBody?
    && response.body.postingIds == row.response.value.body.postingIds
    && response.outputHash == row.response.value.outputHash
  }

  /** The proposal's ledger row: under the proposal's own key, linked from it and reported by its response. */
  predicate CommittedAs(p: Proposal, row: LedgerRow) {
    && HasKey(row, p.sourceSystem, p.externalId)
    && p.approvedTransaction == Some(row.transactionId)
    && p.response.Some? && p.response.value.status == Committed
    && Reports(p.response.value, row)
  }

  /** What each status means, in terms of the decisions taken and the ledger. */
  predicate Settled(decisions: seq<Decision>, ledger: seq<LedgerRow>, p: Proposal) {
    var approvals := DecisionsOn(decisions, p.proposalId, Approve);
    var rejections := DecisionsOn(decisions, p.proposalId, Reject);
    && (p.requiredApprovals > 1 ==> DistinctApprovers(approvals))
    && match p.status
       case Pending =>
         && |approvals| < p.requiredApprovals && rejections == [] && p.approvedTransaction.None?
         && p.response.Some? && p.response.value.status == Proposed
       case Approved =>
         && |approvals| == p.requiredApprovals && rejections == []
         && exists r :: r in ledger && CommittedAs(p, r)
       case Refused =>
         && |approvals| < p.requiredApprovals && |rejections| == 1 && p.approvedTransaction.None?
         && p.response.Some? && p.response.value.status == Rejected
  }

  /** The stored request is the proposal's own bundle, in USD and balanced. */
  predicate RequestSound(p: Proposal) {
    && 1 <= p.requiredApprovals
    && p.request.sourceSystem == p.sourceSystem && p.request.externalId == p.externalId
    && p.impact == Impact(p.request.postings)
    && AllUsd(p.request.postings) && IsBalanced(p.request.postings)
  }

  predicate ProposalKeysUnique(proposals: seq<Proposal>) {
    forall i, j :: 0 <= i < j < |proposals| ==>
      && proposals[i].proposalId != proposals[j].proposalId
      && (proposals[i].sourceSystem != proposals[j].sourceSystem || proposals[i].externalId != proposals[j].externalId)
  }

  predicate ProposalsSettled(db: Db) {
    forall p :: p in db.proposals ==> RequestSound(p) && Settled(db.decisions, db.ledger, p)
  }

  /** The proposal a ledger row says it came from: approved, and the row and its legs are its stored request's. */
  predicate Vouches(postings: seq<PostingRow>, p: Proposal, r: LedgerRow) {
    && r.response.Some? && r.response.value.body.CommittedBody?
    && r.response.value.body.proposalId == Some(p.proposalId)
    && p.status == Approved && CommittedAs(p, r)
    && r == CommittedRow(p.request, r.transactionId, r.response.value)
    && RowsFor(postings, r.transactionId) == LegsOf(p.request, r.transactionId)
  }

  /** Committed without going through a proposal. */
  predicate DirectRow(r: LedgerRow) {
    r.response.Some? && r.response.value.body.CommittedBody? && r.response.value.body.proposalId.None?
  }

  predicate RowsVouched(db: Db) {
    forall r :: r in db.ledger ==> DirectRow(r) || exists p :: p in db.proposals && Vouches(db.postings, p, r)
  }

  ghost predicate Inv(db: Db) {
    LedgerInv(db) && ProposalKeysUnique(db.proposals) && ProposalsSettled(db) && RowsVouched(db)
  }

  lemma FreshInv(db: Db)
    requires Fresh(db)
    ensures Inv(db)
  {
    forall asOf: Day ensures PostedTotal(db, asOf) == 0 {
    }
  }

  // ------------------------------------------------------------------ lookups under the invariant

  lemma {:induction false} FindProposalUnique(proposals: seq<Proposal>, p: Proposal)
    requires ProposalKeysUnique(proposals) && p in proposals
    ensures FindProposalById(proposals, p.proposalId) == Some(p)
    ensures FindProposal(proposals, p.sourceSystem, p.externalId) == Some(p)
  {
    if proposals[0] != p {
      FindProposalUnique(proposals[1..], p);
    }
  }

  /** A key's row is the one found, and its replay carries the row's saved body and hash. */
  lemma {:induction false} FindRowUnique(ledger: seq<LedgerRow>, r: LedgerRow)
    requires LedgerKeysUnique(ledger) && r in ledger
    ensures FindRow(ledger, r.sourceSystem, r.externalId) == Some(r)
  {
    if ledger[0] != r {
      FindRowUnique(ledger[1..], r);
    }
  }

  lemma ReplayReports(db: Db, sourceSystem: string, externalId: string)
    requires RowsComplete(db)
    ensures Replay(db.ledger, sourceSystem, externalId).Some? <==> FindRow(db.ledger, sourceSystem, externalId).Some?
    ensures Replay(db.ledger, sourceSystem, externalId).Some? ==>
              var r := FindRow(db.ledger, sourceSystem, externalId).value;
              && r in db.ledger && HasKey(r, sourceSystem, externalId)
              && Reports(Replay(db.ledger, sourceSystem, externalId).value, r)
  {
    var found := FindRow(db.ledger, sourceSystem, externalId);
    if found.Some? {
      assert Complete(db.postings, found.value);
    }
  }

  // ------------------------------------------------------------------ decisions

  lemma DecisionsAppend(decisions: seq<Decision>, d: Decision, id: nat, action: Action)
    ensures DecisionsOn(decisions + [d], id, action) ==
            DecisionsOn(decisions, id, action) + (if d.proposalId == id && d.action == action then [d] else [])
  {
    assert (decisions + [d])[..|decisions + [d]| - 1] == decisions;
  }

  lemma {:induction false} NoDecisionsYet(decisions: seq<Decision>, id: nat, action: Action)
    requires forall d :: d in decisions ==> d.proposalId != id
    ensures DecisionsOn(decisions, id, action) == []
  {
    if decisions != [] {
      NoDecisionsYet(decisions[..|decisions| - 1], id, action);
    }
  }

  lemma {:induction false} DecisionListed(decisions: seq<Decision>, id: nat, action: Action, d: Decision)
    ensures d in DecisionsOn(decisions, id, action) <==> d in decisions && d.proposalId == id && d.action == action
  {
    if decisions != [] {
      var n := |decisions| - 1;
      DecisionListed(decisions[..n], id, action, d);
      assert decisions == decisions[..n] + [decisions[n]];
    }
  }

  /** Counting distinct approvers counts the approvals, when none is repeated. */
  lemma {:induction false} DistinctCount(s: seq<Decision>)
    requires DistinctApprovers(s)
    ensures |set d | d in s && d.approverId.Some? :: d.approverId.value| == |s|
  {
    var names := set d | d in s && d.approverId.Some? :: d.approverId.value;
    if s == [] {
      assert names == {};
    } else {
      var n := |s| - 1;
      var rest := set d | d in s[..n] && d.approverId.Some? :: d.approverId.value;
      DistinctCount(s[..n]);
      assert s == s[..n] + [s[n]];
      assert names == rest + {s[n].approverId.value};
      assert s[n].approverId.value !in rest;
    }
  }

  // ------------------------------------------------------------------ updating one proposal

  lemma PersistEffect(proposals: seq<Proposal>, p: Proposal, status: ProposalStatus, response: Response,
                      reason: Option<string>, approved: Option<nat>)
    requires ProposalKeysUnique(proposals) && p in proposals
    ensures var next := Persist(proposals, p.proposalId, status, response, reason, approved);
            var updated :=
                p.(status := status, response := Some(response), reason := reason, approvedTransaction := approved);
            && ProposalKeysUnique(next)
            && updated in next
            && (forall q :: q in next ==> q == updated || (q in proposals && q.proposalId != p.proposalId))
            && (forall q :: q in proposals && q.proposalId != p.proposalId ==> q in next)
  {
    var next := Persist(proposals, p.proposalId, status, response, reason, approved);
    var updated := p.(status := status, response := Some(response), reason := reason, approvedTransaction := approved);
    var i :| 0 <= i < |proposals| && proposals[i] == p;
    assert next[i] == updated;
    forall q | q in next
      ensures q == updated || (q in proposals && q.proposalId != p.proposalId)
    {
      var j :| 0 <= j < |next| && next[j] == q;
      if j != i {
        assert proposals[j].proposalId != p.proposalId && next[j] == proposals[j];
      }
    }
    forall q | q in proposals && q.proposalId != p.proposalId
      ensures q in next
    {
      var j :| 0 <= j < |proposals| && proposals[j] == q;
      assert next[j] == q;
    }
  }

  lemma PersistNew(proposals: seq<Proposal>, p: Proposal, response: Response)
    requires forall q :: q in proposals ==> q.proposalId != p.proposalId
    ensures Persist(proposals + [p], p.proposalId, Pending, response, None, None) ==
            proposals + [p.(status := Pending, response := Some(response), reason := None, approvedTransaction := None)]
  {
  }

  /** A proposal stays settled while its decisions stay and the ledger only grows. */
  lemma SettledFrame(d: seq<Decision>, e: seq<Decision>, ledger: seq<LedgerRow>, grown: seq<LedgerRow>, p: Proposal)
    requires Settled(d, ledger, p)
    requires DecisionsOn(d, p.proposalId, Approve) == DecisionsOn(e, p.proposalId, Approve)
    requires DecisionsOn(d, p.proposalId, Reject) == DecisionsOn(e, p.proposalId, Reject)
    requires forall r :: r in ledger ==> r in grown
    ensures Settled(e, grown, p)
  {
  }

  // ------------------------------------------------------------------ recording

  function DirectResponse(db: Db, b: Bundle): Response {
    Respond(Committed, CommittedBody(None, db.nextId, Ids(db.nextId + 1, |b.postings|), None, None, b.correlationId))
  }

  /** The state after a first proposal for a key. */
  function WithProposal(db: Db, b: Bundle, policy: PolicyDecision, duplicates: Option<set<nat>>): Db {
    var p := NewProposal(db, b, policy);
    db.(proposals := db.proposals + [p.(response := Some(ProposalResponse(p, duplicates)))], nextId := db.nextId + 1)
  }

  lemma WriteProposalShape(db: Db, b: Bundle, policy: PolicyDecision, duplicates: Option<set<nat>>)
    requires IdsBelow(db) && WriteProposal(db, b, policy, duplicates).Some?
    ensures WriteProposal(db, b, policy, duplicates).value.0 == WithProposal(db, b, policy, duplicates)
  {
    var p := NewProposal(db, b, policy);
    PersistNew(db.proposals, p, ProposalResponse(p, duplicates));
  }

  lemma WriteDirectShape(db: Db, b: Bundle)
    requires IdsBelow(db)
    ensures WriteDirect(db, b).Some? <==> Insertable(db, b)
    ensures Insertable(db, b) ==>
              WriteDirect(db, b).value == (Appended(db, b, DirectResponse(db, b)), Ok(DirectResponse(db, b)))
  {
    InsertExactly(db, b, DirectResponse(db, b));
    if Insertable(db, b) {
      assert |Ids(db.nextId + 1, |b.postings|)| == |b.postings|;
    }
  }

  /** Answering with a stored proposal, or recovering, changes nothing: stored proposals always carry a response. */
  lemma AnswersChangeNothing(db: Db, b: Bundle)
    requires ProposalsSettled(db)
    ensures Recover(db, b).0 == db
    ensures forall p, duplicates :: p in db.proposals ==>
              AnswerWithProposal(db, p, duplicates) == (db, Ok(p.response.value))
  {
    forall p | p in db.proposals
      ensures p.response.Some?
    {
      assert Settled(db.decisions, db.ledger, p);
    }
  }

  /** Recording leaves the database alone, commits the bundle through an open gate, or adds one pending proposal. */
  lemma RecordShape(db: Db, b: Bundle)
    requires IdsBelow(db) && ProposalsSettled(db)
    ensures var next := Record(db, b).0;
            || next == db
            || (AllUsd(b.postings) && IsBalanced(b.postings) && GateOf(db, b) == Direct && Insertable(db, b)
                && Record(db, b) == (Appended(db, b, DirectResponse(db, b)), Ok(DirectResponse(db, b))))
            || (AllUsd(b.postings) && IsBalanced(b.postings) && GateOf(db, b).Propose? && b.entityId in db.entities
                && FindProposal(db.proposals, b.sourceSystem, b.externalId).None?
                && next == WithProposal(db, b, GateOf(db, b).policy, GateOf(db, b).duplicates))
  {
    hide GateOf, InsertBundle, WriteDirect;
    AnswersChangeNothing(db, b);
    WriteDirectShape(db, b);
    if GateOf(db, b).Propose? {
      var Propose(policy, duplicates) := GateOf(db, b);
      if WriteProposal(db, b, policy, duplicates).Some? {
        WriteProposalShape(db, b, policy, duplicates);
      }
    }
  }

  lemma CanonicalLeg(p: Posting)
    ensures Units(CanonicalPosting(p)) == Units(p) && CanonicalPosting(p).currency == p.currency
  {
    NormalizeIdempotent(Units(p));
  }

  /** Normalising the stored request again changes neither its legs' units nor its balance. */
  lemma {:induction false} CanonicalUnits(postings: seq<Posting>, stored: seq<Posting>)
    requires |stored| == |postings|
    requires forall i :: 0 <= i < |postings| ==> stored[i] == CanonicalPosting(postings[i])
    ensures SumBy(Units, stored) == SumBy(Units, postings)
    ensures SumBy(AbsoluteUnits, stored) == SumBy(AbsoluteUnits, postings)
    ensures AllUsd(stored) <==> AllUsd(postings)
  {
    hide Units, CanonicalPosting;
    if postings != [] {
      CanonicalLeg(postings[0]);
      CanonicalUnits(postings[1..], stored[1..]);
      assert postings == [postings[0]] + postings[1..] && stored == [stored[0]] + stored[1..];
    }
  }

  lemma NewProposalSettled(db: Db, b: Bundle, policy: PolicyDecision, duplicates: Option<set<nat>>)
    requires IdsBelow(db) && AllUsd(b.postings) && IsBalanced(b.postings)
    ensures var next := WithProposal(db, b, policy, duplicates);
            var p := next.proposals[|db.proposals|];
            RequestSound(p) && Settled(next.decisions, next.ledger, p)
  {
    hide Units, CanonicalPosting, DecisionsOn;
    var p := WithProposal(db, b, policy, duplicates).proposals[|db.proposals|];
    CanonicalUnits(b.postings, p.request.postings);
    NoDecisionsYet(db.decisions, p.proposalId, Approve);
    NoDecisionsYet(db.decisions, p.proposalId, Reject);
  }

  lemma ProposingKeepsInv(db: Db, b: Bundle, policy: PolicyDecision, duplicates: Option<set<nat>>)
    requires Inv(db) && AllUsd(b.postings) && IsBalanced(b.postings)
    requires FindProposal(db.proposals, b.sourceSystem, b.externalId).None?
    ensures Inv(WithProposal(db, b, policy, duplicates))
  {
    hide Canonical, DecisionsOn, PostingsOwned, RowsComplete, AlwaysBalanced, LedgerKeysUnique, Settled, RequestSound;
    hide ProposalResponse;
    var next := WithProposal(db, b, policy, duplicates);
    NewProposalSettled(db, b, policy, duplicates);
    LedgerFrame(db, next);
    hide Vouches;
    forall r | r in next.ledger && !DirectRow(r)
      ensures exists q :: q in next.proposals && Vouches(next.postings, q, r)
    {
      var q :| q in db.proposals && Vouches(db.postings, q, r);
      assert q in next.proposals;
    }
  }

  /** Appending a row keeps every proposal settled and every old row vouched for. */
  lemma GrowingKeepsProposals(db: Db, next: Db)
    requires ProposalsSettled(db)
    requires next.proposals == db.proposals && next.decisions == db.decisions && db.ledger <= next.ledger
    ensures ProposalsSettled(next)
  {
    forall p | p in next.proposals
      ensures Settled(next.decisions, next.ledger, p)
    {
      SettledFrame(db.decisions, next.decisions, db.ledger, next.ledger, p);
    }
  }

  lemma DirectKeepsInv(db: Db, b: Bundle)
    requires Inv(db) && IsBalanced(b.postings) && Insertable(db, b)
    ensures Inv(Appended(db, b, DirectResponse(db, b)))
  {
    var next := Appended(db, b, DirectResponse(db, b));
    AppendKeepsLedger(db, b, DirectResponse(db, b));
    GrowingKeepsProposals(db, next);
    forall r | r in next.ledger && !DirectRow(r)
      ensures exists q :: q in next.proposals && Vouches(next.postings, q, r)
    {
      var q :| q in db.proposals && Vouches(db.postings, q, r);
      AppendedRows(db, b, DirectResponse(db, b), r.transactionId);
    }
  }

  lemma RecordKeepsInv(db: Db, b: Bundle)
    requires Inv(db)
    ensures Inv(Record(db, b).0)
  {
    hide Record, GateOf, Appended, WithProposal;
    RecordShape(db, b);
    var next := Record(db, b).0;
    if next != db {
      if GateOf(db, b) == Direct {
        DirectKeepsInv(db, b);
      } else {
        ProposingKeepsInv(db, b, GateOf(db, b).policy, GateOf(db, b).duplicates);
      }
    }
  }

  // ------------------------------------------------------------------ approving

  /** One at a time, the decision insert never clashes, and the count it makes is the number of approvals. */
  lemma ApprovalCounted(db: Db, a: DecisionIn, p: Proposal)
    requires ProposalsSettled(db) && p in db.proposals && p.proposalId == a.proposalId && p.status == Pending
    requires Required(p) > 1 ==> Truthy(a.approverId)
    requires !AlreadyApproved(db, a)
    ensures !DecisionClash(db, a)
    ensures var approvals := DecisionsOn(WithApproval(db, a).decisions, p.proposalId, Approve);
            && approvals == DecisionsOn(db.decisions, p.proposalId, Approve)
                            + [Decision(a.proposalId, Approve, a.approverId, a.reason)]
            && (p.requiredApprovals > 1 ==> DistinctApprovers(approvals))
            && ApprovalCount(WithApproval(db, a).decisions, p.proposalId, Required(p)) == |approvals|
            && |approvals| <= p.requiredApprovals
  {
    assert RequestSound(p) && Settled(db.decisions, db.ledger, p);
    var earlier := DecisionsOn(db.decisions, p.proposalId, Approve);
    if DecisionClash(db, a) {
      var d :| d in db.decisions && d.proposalId == a.proposalId && d.action == Approve && d.approverId == a.approverId;
      DecisionListed(db.decisions, p.proposalId, Approve, d);
    }
    var added := Decision(a.proposalId, Approve, a.approverId, a.reason);
    DecisionsAppend(db.decisions, added, p.proposalId, Approve);
    if p.requiredApprovals > 1 {
      forall i | 0 <= i < |earlier|
        ensures earlier[i].approverId != a.approverId
      {
        DecisionListed(db.decisions, p.proposalId, Approve, earlier[i]);
      }
      DistinctCount(earlier + [added]);
    }
  }

  /** Adding an approval leaves every other proposal settled. */
  lemma OthersStaySettled(db: Db, d: Decision, grown: seq<LedgerRow>, q: Proposal)
    requires ProposalsSettled(db) && q in db.proposals && q.proposalId != d.proposalId
    requires forall r :: r in db.ledger ==> r in grown
    ensures Settled(db.decisions + [d], grown, q)
  {
    DecisionsAppend(db.decisions, d, q.proposalId, Approve);
    DecisionsAppend(db.decisions, d, q.proposalId, Reject);
    SettledFrame(db.decisions, db.decisions + [d], db.ledger, grown, q);
  }

  /** Replacing one proposal that vouches for nothing keeps old rows vouched for. */
  lemma VouchingKept(db: Db, postings: seq<PostingRow>, proposals: seq<Proposal>, p: Proposal, r: LedgerRow)
    requires RowsFor(postings, r.transactionId) == RowsFor(db.postings, r.transactionId)
    requires RowsVouched(db) && ProposalKeysUnique(db.proposals) && p in db.proposals && p.status != Approved
    requires r in db.ledger
    requires forall q :: q in db.proposals && q.proposalId != p.proposalId ==> q in proposals
    ensures DirectRow(r) || exists q :: q in proposals && Vouches(postings, q, r)
  {
    if !DirectRow(r) {
      var q :| q in db.proposals && Vouches(db.postings, q, r);
      if q.proposalId == p.proposalId {
        FindProposalUnique(db.proposals, q);
        FindProposalUnique(db.proposals, p);
      }
      assert q in proposals;
    }
  }

  /** Deciding on a proposal without touching the ledger: the decided proposal settled anew, the rest as before. */
  lemma DecidedKeepsInv(db: Db, next: Db, p: Proposal, d: Decision, updated: Proposal)
    requires Inv(db) && p in db.proposals && p.status != Approved && d.proposalId == p.proposalId
    requires updated.response.Some?
    requires next == Persisted(db.(decisions := db.decisions + [d]), p, updated)
    requires updated == p.(status := updated.status, response := updated.response, reason := updated.reason,
                           approvedTransaction := updated.approvedTransaction)
    requires Settled(next.decisions, next.ledger, updated)
    ensures Inv(next)
  {
    PersistEffect(db.proposals, p, updated.status, updated.response.value, updated.reason, updated.approvedTransaction);
    forall q | q in next.proposals
      ensures RequestSound(q) && Settled(next.decisions, next.ledger, q)
    {
      assert RequestSound(p);
      if q != updated {
        OthersStaySettled(db, d, next.ledger, q);
      }
    }
    forall r | r in next.ledger
      ensures DirectRow(r) || exists q :: q in next.proposals && Vouches(next.postings, q, r)
    {
      VouchingKept(db, next.postings, next.proposals, p, r);
    }
    assert forall q :: q in next.proposals ==> q.proposalId < next.nextId;
    LedgerFrame(db, next);
  }

  function Persisted(db: Db, p: Proposal, updated: Proposal): Db
    requires updated.response.Some?
  {
    db.(proposals := Persist(db.proposals, p.proposalId, updated.status, updated.response.value, updated.reason,
                             updated.approvedTransaction))
  }

  /** The response to the approval that commits by inserting the stored request. */
  function ApprovalResponse(db: Db, p: Proposal, received: nat): Response {
    Respond(Committed,
            CommittedBody(Some(p.proposalId), db.nextId, Ids(db.nextId + 1, |p.request.postings|),
                          Some(Required(p)), Some(received), p.correlationId))
  }

  /** The response to the approval that finds the key already in the ledger. */
  function AdoptionResponse(p: Proposal, r: Response, received: nat): Response
    requires r.body.CommittedBody?
  {
    Response(Committed,
             CommittedBody(Some(p.proposalId), r.body.transactionId, r.body.postingIds, Some(Required(p)),
                           Some(received),
                           p.correlationId),
             r.outputHash)
  }

  function ApprovedWith(p: Proposal, response: Response, reason: Option<string>): Proposal
    requires response.body.CommittedBody?
  {
    p.(status := Approved, response := Some(response), reason := reason,
       approvedTransaction := Some(response.body.transactionId))
  }

  /** The commit half of approving inserts the request, adopts the row already there, or fails with no trace. */
  lemma WriteCommitShape(db: Db, a: DecisionIn, p: Proposal, received: nat)
    requires IdsBelow(db) && RowsComplete(db)
    ensures var result := WriteCommit(db, a, p, received);
            var inserted := ApprovalResponse(db, p, received);
            var replay := Replay(db.ledger, p.request.sourceSystem, p.request.externalId);
            && (Insertable(db, p.request) ==>
                  result == Ok((Persisted(Appended(db, p.request, inserted), p, ApprovedWith(p, inserted, a.reason)),
                                inserted)))
            && (replay.Some? ==>
                  && replay.value.body.CommittedBody?
                  && var adopted := AdoptionResponse(p, replay.value, received);
                  result == Ok((Persisted(db, p, ApprovedWith(p, adopted, a.reason)), adopted)))
            && (!Insertable(db, p.request) && replay.None? ==> result == Err(IntegrityFailure))
  {
    var inserted := ApprovalResponse(db, p, received);
    InsertExactly(db, p.request, inserted);
    ReplayReports(db, p.request.sourceSystem, p.request.externalId);
    if InsertBundle(db, p.request).Violated? {
      ViolatedStage(db, p.request);
    } else {
      assert |Ids(db.nextId + 1, |p.request.postings|)| == |p.request.postings|;
    }
  }

  lemma CommitByInsertKeepsInv(db: Db, a: DecisionIn, p: Proposal)
    requires Inv(db) && p in db.proposals && p.status == Pending && a.proposalId == p.proposalId
    requires !DecisionClash(db, a)
    requires var approvals := DecisionsOn(WithApproval(db, a).decisions, p.proposalId, Approve);
             |approvals| == p.requiredApprovals && (p.requiredApprovals > 1 ==> DistinctApprovers(approvals))
    requires Insertable(db, p.request)
    ensures var staged := WithApproval(db, a);
            var response := ApprovalResponse(staged, p, p.requiredApprovals);
            Inv(Persisted(Appended(staged, p.request, response), p, ApprovedWith(p, response, a.reason)))
  {
    hide PostingsOwned, RowsComplete, AlwaysBalanced, LedgerKeysUnique, ProposalsSettled, ProposalKeysUnique;
    hide RowsVouched;
    hide Settled, Persist, PostingRows, Sort, DecisionsOn;
    var d := Decision(a.proposalId, Approve, a.approverId, a.reason);
    var staged := WithApproval(db, a);
    var response := ApprovalResponse(staged, p, p.requiredApprovals);
    var updated := ApprovedWith(p, response, a.reason);
    var appended := Appended(staged, p.request, response);
    var next := Persisted(appended, p, updated);
    InvGives(db, p);
    LedgerFrame(db, staged);
    AppendKeepsLedger(staged, p.request, response);
    CommitSettles(db, d, p, updated, next, response);
    CommitVouches(db, d, p, updated, next, response);
    LedgerFrame(appended, next);
  }

  /** After the commit every proposal is settled. */
  lemma CommitSettles(db: Db, d: Decision, p: Proposal, updated: Proposal, next: Db, response: Response)
    requires Inv(db) && p in db.proposals && p.status == Pending
    requires d == Decision(p.proposalId, Approve, d.approverId, d.reason)
    requires response == ApprovalResponse(db, p, p.requiredApprovals)
    requires updated == ApprovedWith(p, response, updated.reason)
    requires next == Persisted(Appended(db.(decisions := db.decisions + [d]), p.request, response), p, updated)
    requires var approvals := DecisionsOn(db.decisions + [d], p.proposalId, Approve);
             |approvals| == p.requiredApprovals && (p.requiredApprovals > 1 ==> DistinctApprovers(approvals))
    ensures ProposalKeysUnique(next.proposals) && ProposalsSettled(next)
    ensures forall q :: q in next.proposals ==> q.proposalId < db.nextId
    ensures updated in next.proposals
    ensures forall q :: q in db.proposals && q.proposalId != p.proposalId ==> q in next.proposals
  {
    hide LegsOf, Sort, PostingRows, DecisionsOn, RowsVouched;
    var row := next.ledger[|db.ledger|];
    InvGives(db, p);
    PersistEffect(db.proposals, p, Approved, response, updated.reason, updated.approvedTransaction);
    hide Persist, ProposalKeysUnique;
    DecisionsAppend(db.decisions, d, p.proposalId, Reject);
    assert row in next.ledger && CommittedAs(updated, row);
    forall q | q in next.proposals
      ensures RequestSound(q) && Settled(next.decisions, next.ledger, q)
    {
      if q != updated {
        OthersStaySettled(db, d, next.ledger, q);
      }
    }
  }

  /** After the commit the new row is vouched for by the proposal, and every other row as before. */
  lemma CommitVouches(db: Db, d: Decision, p: Proposal, updated: Proposal, next: Db, response: Response)
    requires Inv(db) && p in db.proposals && p.status == Pending
    requires response == ApprovalResponse(db, p, p.requiredApprovals)
    requires updated == ApprovedWith(p, response, updated.reason)
    requires next == Persisted(Appended(db.(decisions := db.decisions + [d]), p.request, response), p, updated)
    requires updated in next.proposals
    requires forall q :: q in db.proposals && q.proposalId != p.proposalId ==> q in next.proposals
    ensures RowsVouched(next)
  {
    hide LegsOf, Sort, PostingRows, RowsFor, Persist;
    var row := next.ledger[|db.ledger|];
    InvGives(db, p);
    AppendedRows(db, p.request, response, row.transactionId);
    assert Vouches(next.postings, updated, row);
    forall r | r in next.ledger
      ensures DirectRow(r) || exists q :: q in next.proposals && Vouches(next.postings, q, r)
    {
      if r in db.ledger {
        AppendedRows(db, p.request, response, r.transactionId);
        VouchingKept(db, next.postings, next.proposals, p, r);
      } else {
        assert r == row;
      }
    }
  }

  lemma CommitByAdoptionKeepsInv(db: Db, a: DecisionIn, p: Proposal)
    requires Inv(db) && p in db.proposals && p.status == Pending && a.proposalId == p.proposalId
    requires !DecisionClash(db, a)
    requires var approvals := DecisionsOn(WithApproval(db, a).decisions, p.proposalId, Approve);
             |approvals| == p.requiredApprovals && (p.requiredApprovals > 1 ==> DistinctApprovers(approvals))
    requires var replay := Replay(db.ledger, p.sourceSystem, p.externalId);
             replay.Some? && replay.value.body.CommittedBody?
    ensures var adopted :=
            AdoptionResponse(p, Replay(db.ledger, p.sourceSystem, p.externalId).value, p.requiredApprovals);
            Inv(Persisted(WithApproval(db, a), p, ApprovedWith(p, adopted, a.reason)))
  {
    var d := Decision(a.proposalId, Approve, a.approverId, a.reason);
    assert RequestSound(p) && Settled(db.decisions, db.ledger, p);
    ReplayReports(db, p.sourceSystem, p.externalId);
    var row := FindRow(db.ledger, p.sourceSystem, p.externalId).value;
    var adopted := AdoptionResponse(p, Replay(db.ledger, p.sourceSystem, p.externalId).value, p.requiredApprovals);
    var updated := ApprovedWith(p, adopted, a.reason);
    DecisionsAppend(db.decisions, d, p.proposalId, Reject);
    assert row in db.ledger && CommittedAs(updated, row);
    DecidedKeepsInv(db, Persisted(WithApproval(db, a), p, updated), p, d, updated);
  }

  lemma CountingKeepsInv(db: Db, a: DecisionIn, p: Proposal)
    requires Inv(db) && p in db.proposals && p.status == Pending && a.proposalId == p.proposalId
    requires !DecisionClash(db, a)
    requires var approvals := DecisionsOn(WithApproval(db, a).decisions, p.proposalId, Approve);
             |approvals| < p.requiredApprovals && (p.requiredApprovals > 1 ==> DistinctApprovers(approvals))
    ensures var db1 := WithApproval(db, a);
            forall received ::
                Inv(db1.(proposals := Persist(db1.proposals, p.proposalId, Pending, PendingResponse(p, received),
                                              a.reason, None)))
  {
    var d := Decision(a.proposalId, Approve, a.approverId, a.reason);
    DecisionsAppend(db.decisions, d, p.proposalId, Reject);
    assert Settled(db.decisions, db.ledger, p);
    forall received: nat
      ensures var db1 := WithApproval(db, a);
              Inv(db1.(proposals := Persist(db1.proposals, p.proposalId, Pending, PendingResponse(p, received),
                                            a.reason, None)))
    {
      var updated :=
          p.(status := Pending, response := Some(PendingResponse(p, received)), reason := a.reason,
             approvedTransaction := None);
      DecidedKeepsInv(db, Persisted(WithApproval(db, a), p, updated), p, d, updated);
    }
  }

  lemma WriteApprovalKeepsInv(db: Db, a: DecisionIn, p: Proposal)
    requires Inv(db) && p in db.proposals && p.status == Pending && a.proposalId == p.proposalId
    requires Required(p) > 1 ==> Truthy(a.approverId)
    requires !AlreadyApproved(db, a)
    ensures Inv(WriteApproval(db, a, p).0)
  {
    hide Persist, Inv, InsertBundle, WriteCommit;
    assert RequestSound(p) && Inv(db) by { InvGives(db, p); }
    InvParts(db);
    ApprovalCounted(db, a, p);
    var staged := WithApproval(db, a);
    var received := ApprovalCount(staged.decisions, p.proposalId, Required(p));
    if received < Required(p) {
      CountingKeepsInv(db, a, p);
    } else {
      WriteCommitShape(staged, a, p, received);
      assert received == p.requiredApprovals == Required(p);
      ReplayReports(db, p.sourceSystem, p.externalId);
      if Insertable(staged, p.request) {
        CommitByInsertKeepsInv(db, a, p);
      } else if Replay(db.ledger, p.sourceSystem, p.externalId).Some? {
        CommitByAdoptionKeepsInv(db, a, p);
      }
    }
  }

  lemma InvGives(db: Db, p: Proposal)
    requires Inv(db) && p in db.proposals
    ensures RequestSound(p) && Settled(db.decisions, db.ledger, p)
  {
  }

  lemma InvParts(db: Db)
    requires Inv(db)
    ensures IdsBelow(db) && RowsComplete(db) && ProposalsSettled(db) && ProposalKeysUnique(db.proposals)
    ensures LedgerKeysUnique(db.ledger)
  {
  }

  lemma ApproveKeepsInv(db: Db, a: DecisionIn)
    requires Inv(db)
    ensures Inv(ApproveProposal(db, a).0)
  {
    hide Inv, WriteApproval;
    var found := FindProposalById(db.proposals, a.proposalId);
    if found.Some? && ApproveRead(found.value, a).None? && !AlreadyApproved(db, a) {
      WriteApprovalKeepsInv(db, a, found.value);
    }
  }

  // ------------------------------------------------------------------ rejecting

  lemma RejectKeepsInv(db: Db, a: DecisionIn)
    requires Inv(db)
    ensures Inv(RejectProposal(db, a).0)
  {
    hide Inv;
    var found := FindProposalById(db.proposals, a.proposalId);
    if found.Some? && RejectRead(found.value).None? && RejectProposal(db, a).0 != db {
      var p := found.value;
      InvGives(db, p);
      var d := Decision(p.proposalId, Reject, a.approverId, a.reason);
      DecisionsAppend(db.decisions, d, p.proposalId, Approve);
      DecisionsAppend(db.decisions, d, p.proposalId, Reject);
      var response := Respond(Rejected, RejectedBody(p.proposalId, a.reason, p.correlationId));
      var updated := p.(status := Refused, response := Some(response), reason := a.reason, approvedTransaction := None);
      DecidedKeepsInv(db, RejectProposal(db, a).0, p, d, updated);
    }
  }
}
