/** What a call to record, approve or reject leaves behind, figure by figure: the stored proposal, the committed row
  and its legs, the decision, and every way a call can fail. */
module Recorded {
  import opened Wrappers
  import opened Ordering
  import opened Money
  import opened DecimalText
  import opened LedgerTables
  import opened LedgerTools
  import opened LedgerInvariants
  import opened ProposalLifecycle
  import opened ApprovalGate
  import opened LedgerRuns

  // ------------------------------------------------------------------ a stored request

  function TextOrNothing(memo: Option<string>): string {
    if memo.Some? then memo.value else ""
  }

  /** Insertion order: by account, then by the text of the amount, then by memo. */
  predicate InLegOrder(legs: seq<Posting>) {
    forall i, j :: 0 <= i < j < |legs| ==>
      var x, y := legs[i], legs[j];
      || StrLt(x.accountId, y.accountId)
      || (x.accountId == y.accountId && StrLt(x.amountText, y.amountText))
      || (x.accountId == y.accountId && x.amountText == y.amountText
          && StrLe(TextOrNothing(x.memo), TextOrNothing(y.memo)))
  }

  /** These posting rows are these legs in this order, each amount in units, under consecutive ids. */
  predicate ArePosted(rows: seq<PostingRow>, legs: seq<Posting>, owner: nat) {
    && |rows| == |legs|
    && forall i :: 0 <= i < |legs| ==>
         && rows[i].postingId == owner + 1 + i && rows[i].transactionId == owner
         && rows[i].accountId == legs[i].accountId && rows[i].amount == Normalize(legs[i].amount)
         && rows[i].currency == legs[i].currency && rows[i].memo == legs[i].memo
  }

  /** A row with every field of the bundle, saving a first response that names it and its postings. */
  predicate IsRowOf(r: LedgerRow, b: Bundle) {
    && r.sourceSystem == b.sourceSystem && r.externalId == b.externalId
    && r.date == b.date && r.description == b.description && r.correlationId == b.correlationId
    && r.entityId == b.entityId && r.isAdjusting == b.isAdjusting && r.adjustingReason == b.adjustingReason
    && r.response.Some? && r.response.value.status == Committed && r.response.value.body.CommittedBody?
    && r.response.value.body.transactionId == r.transactionId
    && r.response.value.body.postingIds == seq(|b.postings|, i requires 0 <= i => r.transactionId + 1 + i)
    && r.response.value.outputHash == Digest(r.response.value.body)
  }

  /** The ledger gains this row for this bundle, with all of the bundle's legs in insertion order, under ids never
    used. */
  ghost predicate Commits(db: Db, next: Db, b: Bundle, r: LedgerRow) {
    && next.ledger == db.ledger + [r] && IsRowOf(r, b) && r.transactionId == db.nextId
    && exists legs, rows ::
         && multiset(legs) == multiset(b.postings) && InLegOrder(legs)
         && ArePosted(rows, legs, r.transactionId) && next.postings == db.postings + rows
  }

  lemma AppendedCommits(db: Db, b: Bundle, response: Response)
    requires response.status == Committed && response.body.CommittedBody?
    requires response.outputHash == Digest(response.body)
    requires response.body.transactionId == db.nextId && response.body.postingIds == Ids(db.nextId + 1, |b.postings|)
    ensures Commits(db, Appended(db, b, response), b, CommittedRow(b, db.nextId, response))
  {
    hide Sort, Normalize, StrLe;
    var legs := Sort(PostingLe, b.postings);
    var rows := PostingRows(legs, db.nextId, db.nextId + 1);
    SortedPostings(b);
    PostingLePreorder();
    SortCorrect(PostingLe, b.postings);
    InOrder(legs);
    assert ArePosted(rows, legs, db.nextId);
  }

  lemma InOrder(legs: seq<Posting>)
    requires SortedBy(PostingLe, legs)
    ensures InLegOrder(legs)
  {
    hide StrLe;
    forall i, j | 0 <= i < j < |legs| ensures PostingLe(legs[i], legs[j]) {
    }
  }

  // ------------------------------------------------------------------ recording

  /** The key is in the ledger. */
  predicate InLedger(db: Db, sourceSystem: string, externalId: string) {
    exists r :: r in db.ledger && r.sourceSystem == sourceSystem && r.externalId == externalId
  }

  predicate InProposals(db: Db, sourceSystem: string, externalId: string) {
    exists p :: p in db.proposals && p.sourceSystem == sourceSystem && p.externalId == externalId
  }

  predicate OnlyDollars(b: Bundle) {
    forall leg :: leg in b.postings ==> leg.currency == "USD"
  }

  function LegUnits(leg: Posting): int {
    Normalize(leg.amount)
  }

  function UnitsIn(leg: Posting): int {
    if Normalize(leg.amount) > 0 then Normalize(leg.amount) else 0
  }

  lemma SameChecks(b: Bundle)
    ensures AllUsd(b.postings) <==> OnlyDollars(b)
    ensures IsBalanced(b.postings) <==> SumBy(LegUnits, b.postings) == 0
  {
    hide SumBy, Normalize;
    SumByAgree(Units, LegUnits, b.postings);
  }

  lemma KeyListed(db: Db, b: Bundle)
    ensures FindRow(db.ledger, b.sourceSystem, b.externalId).Some? <==> InLedger(db, b.sourceSystem, b.externalId)
    ensures FindProposal(db.proposals, b.sourceSystem, b.externalId).Some? <==>
              InProposals(db, b.sourceSystem, b.externalId)
  {
  }

  /** The four ways recording fails before or in its write, each exactly; a failure changes nothing, and a period
    error is the only other one. */
  lemma RecordFailsExactly(db: Db, b: Bundle)
    requires Inv(db)
    ensures var outcome, fits := Record(db, b).1, OnlyDollars(b) && SumBy(LegUnits, b.postings) == 0;
            && (outcome == Err(OnlyUsd) <==> !OnlyDollars(b))
            && (outcome == Err(Unbalanced) <==> OnlyDollars(b) && SumBy(LegUnits, b.postings) != 0)
            && (outcome == Err(IntegrityFailure) <==>
                  && fits && !GateOf(db, b).Refuse?
                  && !InLedger(db, b.sourceSystem, b.externalId) && !InProposals(db, b.sourceSystem, b.externalId)
                  && (|| b.entityId !in db.entities
                      || (GateOf(db, b) == Direct && exists leg :: leg in b.postings && leg.accountId !in db.accounts)))
            && (outcome.Err? ==>
                  && Record(db, b).0 == db
                  && outcome.error in {OnlyUsd, Unbalanced, IntegrityFailure, PeriodClosedRequiresAdjusting,
                                       PeriodLocked})
  {
    hide GateOf, WriteProposal, WriteDirect, SumBy, Normalize, InLedger, InProposals;
    InvParts(db);
    SameChecks(b);
    KeyListed(db, b);
    ReplayReports(db, b.sourceSystem, b.externalId);
    AnswersChangeNothing(db, b);
    WriteDirectShape(db, b);
    GateRefuses(db, b);
    if GateOf(db, b).Propose? {
      WritesProposal(db, b, GateOf(db, b).policy, GateOf(db, b).duplicates);
    }
  }

  lemma GateRefuses(db: Db, b: Bundle)
    ensures GateOf(db, b).Refuse? ==> GateOf(db, b).failure in {PeriodClosedRequiresAdjusting, PeriodLocked}
  {
    hide EvaluatePolicy, DuplicateMatches;
  }

  lemma WritesProposal(db: Db, b: Bundle, policy: PolicyDecision, duplicates: Option<set<nat>>)
    requires IdsBelow(db)
    ensures var written := WriteProposal(db, b, policy, duplicates);
            && (written.Some? <==>
                  FindProposal(db.proposals, b.sourceSystem, b.externalId).None? && b.entityId in db.entities)
            && (written.Some? ==>
                  written.value == (WithProposal(db, b, policy, duplicates),
                                    Ok(ProposalResponse(NewProposal(db, b, policy), duplicates))))
  {
    if WriteProposal(db, b, policy, duplicates).Some? {
      WriteProposalShape(db, b, policy, duplicates);
    }
  }

  /** A stored request: every field of the bundle, with each amount quantized to units and written out in full. */
  predicate IsRequestOf(stored: Bundle, b: Bundle) {
    && stored == b.(postings := stored.postings) && |stored.postings| == |b.postings|
    && forall i :: 0 <= i < |b.postings| ==>
         var units := Normalize(b.postings[i].amount);
         stored.postings[i] == b.postings[i].(amount := units as real / 10000.0, amountText := AmountText(units))
  }

  /** A response that a proposal waits for its first approval. */
  predicate IsFirstAnswer(answer: Response, p: Proposal, duplicates: Option<set<nat>>) {
    && answer.status == Proposed && answer.outputHash == Digest(answer.body)
    && answer.body == ProposedBody(p.proposalId, p.correlationId, Some(p.threshold), Some(p.impact), p.matchedRule,
                                   p.requiredApprovals, 0, duplicates)
  }

  /** The duplicates shown are the rows that cover the bundle, or none are shown when there are none. */
  ghost predicate ShowsDuplicates(db: Db, b: Bundle, duplicates: Option<set<nat>>) {
    && (duplicates.None? <==> forall r :: !Duplicates(db, r, b.date, MatchKeys(b.postings)))
    && (duplicates.Some? ==>
          forall id :: id in duplicates.value <==>
            exists r :: Duplicates(db, r, b.date, MatchKeys(b.postings)) && r.transactionId == id)
  }

  /** A proposal that recording adds carries the bundle, its positive legs as impact, and the threshold, quorum and
    rule that govern the bundle in the state it is recorded in; the answer says so and shows the duplicates. */
  lemma RecordedProposal(db: Db, b: Bundle, p: Proposal) returns (duplicates: Option<set<nat>>)
    requires Inv(db) && RuleIdsUnique(db.rules)
    requires p in Record(db, b).0.proposals && p !in db.proposals
    ensures Record(db, b).0 == db.(proposals := db.proposals + [p], nextId := db.nextId + 1)
    ensures p.proposalId == db.nextId
    ensures p.sourceSystem == b.sourceSystem && p.externalId == b.externalId && p.correlationId == b.correlationId
    ensures p.status == Pending && p.reason.None? && p.approvedTransaction.None?
    ensures IsRequestOf(p.request, b) && p.impact == SumBy(UnitsIn, b.postings)
    ensures forall rule :: Governs(db, rule, b) ==>
              && p.requiredApprovals == Max(1, rule.requiredApprovals) && p.threshold == rule.threshold
              && p.matchedRule == Some(rule.ruleId)
    ensures (forall rule :: !Applies(db, rule, b)) ==>
              p.requiredApprovals == 1 && p.threshold == db.fallbackThreshold && p.matchedRule == None
    ensures p.response.Some? && Record(db, b).1 == Ok(p.response.value)
    ensures IsFirstAnswer(p.response.value, p, duplicates) && ShowsDuplicates(db, b, duplicates)
  {
    hide GateOf, SumBy, Governs, Applies, Duplicates, MatchKeys, DuplicateMatches, Impact, Normalize, WriteProposal;
    InvParts(db);
    RecordShape(db, b);
    var gate := GateOf(db, b);
    assert gate.Propose?;
    duplicates := gate.duplicates;
    WritesProposal(db, b, gate.policy, duplicates);
    QuorumFromGoverningRule(db, b);
    ImpactExact(b.postings);
    SumByAgree(PositiveUnits, UnitsIn, b.postings);
    ShownDuplicates(db, b);
    RequestStored(b);
  }

  lemma RequestStored(b: Bundle)
    ensures IsRequestOf(Canonical(b), b)
  {
    hide Normalize, AmountText;
  }

  lemma ShownDuplicates(db: Db, b: Bundle)
    requires GateOf(db, b).Propose?
    ensures ShowsDuplicates(db, b, GateOf(db, b).duplicates)
  {
    hide EvaluatePolicy, PeriodGate, MatchKeys, MatchedTexts, RowKeys;
    DuplicatesExactly(db, b);
    var keys := MatchKeys(b.postings);
    forall r | r in db.ledger
      ensures |MatchedTexts(db.postings, r.transactionId, keys)| == |keys| <==>
                keys <= RowKeys(db.postings, r.transactionId)
    {
      CountingQueryIsContainment(db.postings, r.transactionId, keys);
    }
  }

  /** A row that recording adds holds the bundle, commits all of its legs, and is what the answer reports. */
  lemma RecordedRow(db: Db, b: Bundle, r: LedgerRow)
    requires Inv(db) && r in Record(db, b).0.ledger && r !in db.ledger
    ensures Commits(db, Record(db, b).0, b, r)
    ensures Record(db, b).1 == Ok(r.response.value)
    ensures var body := r.response.value.body;
            body.proposalId.None? && body.required.None? && body.received.None? && body.correlationId == b.correlationId
    ensures var next := Record(db, b).0; next.proposals == db.proposals && next.decisions == db.decisions
  {
    hide GateOf, Commits, Sort, PostingRows, Record;
    InvParts(db);
    RecordShape(db, b);
    AppendedCommits(db, b, DirectResponse(db, b));
  }

  /** A call that neither fails nor writes answers with what is saved under its key: the ledger row's response marked
    as a replay, or else the proposal's response. */
  lemma RecordAnswersAgain(db: Db, b: Bundle)
    requires Inv(db) && Record(db, b).0 == db && Record(db, b).1.Ok?
    ensures var answer := Record(db, b).1.value;
            || (exists r :: r in db.ledger && r.sourceSystem == b.sourceSystem && r.externalId == b.externalId
                            && r.response.Some? && answer == r.response.value.(status := IdempotentReplay))
            || (!InLedger(db, b.sourceSystem, b.externalId)
                && exists p :: p in db.proposals && p.sourceSystem == b.sourceSystem && p.externalId == b.externalId
                               && p.response == Some(answer))
  {
    hide GateOf, WriteDirect, WriteProposal, Insertable, WithProposal, AllUsd, IsBalanced, InLedger, Appended;
    InvParts(db);
    KeyListed(db, b);
    AnswersChangeNothing(db, b);
    WriteDirectShape(db, b);
    Grown(db, b);
    if GateOf(db, b).Propose? {
      WritesProposal(db, b, GateOf(db, b).policy, GateOf(db, b).duplicates);
    }
  }

  lemma Grown(db: Db, b: Bundle)
    ensures Appended(db, b, DirectResponse(db, b)) != db
    ensures forall policy, duplicates :: WithProposal(db, b, policy, duplicates) != db
  {
    hide Sort, PostingRows;
    assert |Appended(db, b, DirectResponse(db, b)).ledger| == |db.ledger| + 1;
    forall policy, duplicates ensures WithProposal(db, b, policy, duplicates) != db {
      assert |WithProposal(db, b, policy, duplicates).proposals| == |db.proposals| + 1;
    }
  }

  // ------------------------------------------------------------------ approving

  function DecidedBy(id: nat, action: Action): Decision -> bool {
    (d: Decision) => d.proposalId == id && d.action == action
  }

  /** How many decisions of one kind a proposal has. */
  function Tally(decisions: seq<Decision>, id: nat, action: Action): nat {
    |Places(DecidedBy(id, action), decisions)|
  }

  lemma {:induction false} TallyCounts(decisions: seq<Decision>, id: nat, action: Action)
    ensures Tally(decisions, id, action) == |DecisionsOn(decisions, id, action)|
  {
    hide Places;
    if decisions == [] {
      NoPlaces(DecidedBy(id, action));
    } else {
      var n := |decisions| - 1;
      TallyCounts(decisions[..n], id, action);
      assert decisions == decisions[..n] + [decisions[n]];
      PlacesAppend(DecidedBy(id, action), decisions[..n], decisions[n]);
    }
  }

  /** Everybody who approved the proposal did so by name, and once. */
  predicate ApproversDiffer(decisions: seq<Decision>, id: nat) {
    && (forall i :: 0 <= i < |decisions| && DecidedBy(id, Approve)(decisions[i]) ==> decisions[i].approverId.Some?)
    && (forall i, j ::
          0 <= i < j < |decisions| && DecidedBy(id, Approve)(decisions[i]) && DecidedBy(id, Approve)(decisions[j]) ==>
            decisions[i].approverId != decisions[j].approverId)
  }

  lemma {:induction false} DistinctMeansDiffer(decisions: seq<Decision>, id: nat)
    requires DistinctApprovers(DecisionsOn(decisions, id, Approve))
    ensures ApproversDiffer(decisions, id)
  {
    if decisions != [] {
      var n := |decisions| - 1;
      var before, on := decisions[..n], DecisionsOn(decisions[..n], id, Approve);
      assert DecisionsOn(decisions, id, Approve)[..|on|] == on;
      DistinctMeansDiffer(before, id);
      if DecidedBy(id, Approve)(decisions[n]) {
        assert DecisionsOn(decisions, id, Approve)[|on|] == decisions[n];
        forall i | 0 <= i < n && DecidedBy(id, Approve)(decisions[i])
          ensures decisions[i].approverId != decisions[n].approverId
        {
          DecisionListed(before, id, Approve, decisions[i]);
          var k :| 0 <= k < |on| && on[k] == decisions[i];
          assert DecisionsOn(decisions, id, Approve)[k] == on[k];
        }
      }
    }
  }

  /** Someone with a name. */
  predicate Named(approver: Option<string>) {
    approver.Some? && approver.value != ""
  }

  predicate HasApproved(db: Db, a: DecisionIn) {
    exists d :: d in db.decisions && d.proposalId == a.proposalId && d.action == Approve && d.approverId == a.approverId
  }

  /** The proposal is decided anew in place, and no other changes. */
  predicate Redecided(before: seq<Proposal>, after: seq<Proposal>, p: Proposal, status: ProposalStatus,
                      answer: Response, reason: Option<string>, transaction: Option<nat>)
  {
    && |after| == |before|
    && forall i :: 0 <= i < |before| ==>
         after[i] == if before[i].proposalId != p.proposalId then before[i]
                     else before[i].(status := status, response := Some(answer), reason := reason,
                                     approvedTransaction := transaction)
  }

  /** An answer that approvals are still missing. */
  predicate IsPendingAnswer(answer: Response, p: Proposal, received: nat) {
    && answer.status == Proposed && answer.outputHash == Digest(answer.body)
    && answer.body == ProposedBody(p.proposalId, p.correlationId, None, None, None, p.requiredApprovals, received, None)
  }

  /** When a proposal cannot be approved, or already was, nothing changes and the answer says which. */
  lemma ApproveAnswersExactly(db: Db, a: DecisionIn)
    requires Inv(db)
    ensures (forall p :: p in db.proposals ==> p.proposalId != a.proposalId) ==>
              ApproveProposal(db, a) == (db, Err(ProposalNotFound))
    ensures forall p :: p in db.proposals && p.proposalId == a.proposalId ==>
              && (p.status == Refused ==> ApproveProposal(db, a) == (db, Err(RejectedCannotBeApproved)))
              && (p.status != Refused && p.requiredApprovals > 1 && !Named(a.approverId) ==>
                    ApproveProposal(db, a) == (db, Err(ApproverRequired)))
              && (p.status == Approved && (p.requiredApprovals <= 1 || Named(a.approverId)) ==>
                    p.response.Some? && ApproveProposal(db, a) == (db, Ok(p.response.value)))
  {
    hide Inv, WriteApproval, AlreadyApproved, ApprovalCount, ProposalsSettled, IdsBelow, RowsComplete;
    InvParts(db);
    forall p | p in db.proposals && p.proposalId == a.proposalId
      ensures FindProposalById(db.proposals, a.proposalId) == Some(p) && p.response.Some?
    {
      FindProposalUnique(db.proposals, p);
      AlwaysAnswered(db, p);
    }
  }

  /** The ledger stays and the answer reports the row that already has the key. */
  ghost predicate Adopts(db: Db, next: Db, p: Proposal, answer: Response) {
    && next.ledger == db.ledger && next.postings == db.postings
    && exists r :: r in db.ledger && r.sourceSystem == p.sourceSystem && r.externalId == p.externalId
                   && r.response.Some? && r.response.value.body.CommittedBody?
                   && answer.body.CommittedBody? && answer.body.transactionId == r.transactionId
                   && answer.body.postingIds == r.response.value.body.postingIds
                   && answer.outputHash == r.response.value.outputHash
  }

  /** The answer that commits a proposal with its n-th approval. */
  predicate IsCommitAnswer(answer: Response, p: Proposal, received: nat) {
    && answer.status == Committed && answer.body.CommittedBody?
    && answer.body.proposalId == Some(p.proposalId) && answer.body.correlationId == p.correlationId
    && answer.body.required == Some(p.requiredApprovals) && answer.body.received == Some(received)
  }

  /** What one more approval does, being the received-th: it is recorded once, and either it leaves the count short of
    the quorum, or it meets the quorum and commits the stored request under a free key, adopts the row that has the
    key, or fails without a trace because the request no longer fits the tables. */
  ghost predicate Approves(db: Db, a: DecisionIn, p: Proposal, received: nat, next: Db, outcome: Outcome) {
    var decided := db.decisions + [Decision(p.proposalId, Approve, a.approverId, a.reason)];
    if received < p.requiredApprovals then
      && outcome.Ok? && IsPendingAnswer(outcome.value, p, received)
      && Redecided(db.proposals, next.proposals, p, Pending, outcome.value, a.reason, None)
      && next == db.(proposals := next.proposals, decisions := decided)
    else if outcome.Err? then
      && next == db && outcome.error == IntegrityFailure
      && !InLedger(db, p.sourceSystem, p.externalId)
      && (|| p.request.entityId !in db.entities
          || exists leg :: leg in p.request.postings && leg.accountId !in db.accounts)
    else
      && IsCommitAnswer(outcome.value, p, received)
      && Redecided(db.proposals, next.proposals, p, Approved, outcome.value, a.reason,
                   Some(outcome.value.body.transactionId))
      && next.decisions == decided
      && (if InLedger(db, p.sourceSystem, p.externalId) then Adopts(db, next, p, outcome.value)
          else exists r :: Commits(db, next, p.request, r) && r.response == Some(outcome.value))
  }

  /** A pending proposal that can be approved has fewer approvals than its quorum; somebody who approved it before
    only reads the count, and anybody else adds one approval, with its effect. */
  lemma ApprovePendingExactly(db: Db, a: DecisionIn, p: Proposal)
    requires Inv(db) && p in db.proposals && p.proposalId == a.proposalId && p.status == Pending
    requires p.requiredApprovals > 1 ==> Named(a.approverId)
    ensures var (next, outcome) := ApproveProposal(db, a);
            var n := Tally(db.decisions, p.proposalId, Approve);
            && n < p.requiredApprovals
            && (if Named(a.approverId) && HasApproved(db, a)
                then next == db && outcome.Ok? && IsPendingAnswer(outcome.value, p, n)
                else Approves(db, a, p, n + 1, next, outcome))
  {
    hide Inv, Approves, Tally, DecisionsOn, WriteApproval, ApprovalCount, ProposalsSettled, IdsBelow, RowsComplete;
    InvParts(db);
    FindProposalUnique(db.proposals, p);
    TallyCounts(db.decisions, p.proposalId, Approve);
    PendingFacts(db, p);
    assert AlreadyApproved(db, a) <==> Named(a.approverId) && HasApproved(db, a);
    if AlreadyApproved(db, a) {
      CountedAgain(db, p);
    } else {
      ApprovalWritten(db, a, p);
    }
  }

  lemma PendingFacts(db: Db, p: Proposal)
    requires Inv(db) && p in db.proposals && p.status == Pending
    ensures var approvals := DecisionsOn(db.decisions, p.proposalId, Approve);
            && 1 <= p.requiredApprovals && |approvals| < p.requiredApprovals
            && (p.requiredApprovals > 1 ==> DistinctApprovers(approvals))
            && DecisionsOn(db.decisions, p.proposalId, Reject) == []
    ensures p.request.sourceSystem == p.sourceSystem && p.request.externalId == p.externalId
    ensures OnlyDollars(p.request)
  {
    InvGives(db, p);
  }

  /** Somebody who already approved is told the count as it stands. */
  lemma CountedAgain(db: Db, p: Proposal)
    requires Inv(db) && p in db.proposals && p.status == Pending
    ensures ApprovalCount(db.decisions, p.proposalId, Required(p)) == |DecisionsOn(db.decisions, p.proposalId, Approve)|
  {
    PendingFacts(db, p);
    if p.requiredApprovals > 1 {
      DistinctCount(DecisionsOn(db.decisions, p.proposalId, Approve));
    }
  }

  lemma ApprovalWritten(db: Db, a: DecisionIn, p: Proposal)
    requires Inv(db) && p in db.proposals && p.proposalId == a.proposalId && p.status == Pending
    requires p.requiredApprovals > 1 ==> Named(a.approverId)
    requires !AlreadyApproved(db, a)
    ensures var (next, outcome) := WriteApproval(db, a, p);
            Approves(db, a, p, |DecisionsOn(db.decisions, p.proposalId, Approve)| + 1, next, outcome)
  {
    hide Inv, Approves, DecisionsOn, WriteCommit, ApprovalCount, Persist, IdsBelow, RowsComplete, ProposalsSettled;
    InvParts(db);
    PendingFacts(db, p);
    ApprovalCounted(db, a, p);
    var received := ApprovalCount(WithApproval(db, a).decisions, p.proposalId, Required(p));
    if received < Required(p) {
      FallsShort(db, a, p, received);
    } else {
      MeetsQuorum(db, a, p, received);
    }
  }

  lemma FallsShort(db: Db, a: DecisionIn, p: Proposal, received: nat)
    requires p.proposalId == a.proposalId && !DecisionClash(db, a) && received < p.requiredApprovals
    requires received == ApprovalCount(WithApproval(db, a).decisions, p.proposalId, Required(p))
    ensures var (next, outcome) := WriteApproval(db, a, p); Approves(db, a, p, received, next, outcome)
  {
    hide ApprovalCount, WriteCommit, DecisionClash;
    PersistRedecides(db.proposals, p);
  }

  lemma MeetsQuorum(db: Db, a: DecisionIn, p: Proposal, received: nat)
    requires Inv(db) && p in db.proposals && p.status == Pending && p.proposalId == a.proposalId
    requires !DecisionClash(db, a) && received == p.requiredApprovals
    requires received == ApprovalCount(WithApproval(db, a).decisions, p.proposalId, Required(p))
    ensures var (next, outcome) := WriteApproval(db, a, p); Approves(db, a, p, received, next, outcome)
  {
    hide Inv, Commits, Adopts, InLedger, DecisionsOn, WriteCommit, ApprovalCount, Persist, Insertable, Replay;
    hide DecisionClash, IdsBelow, RowsComplete, Redecided, ProposalsSettled, Sort, PostingRows, CommittedRow;
    InvParts(db);
    PendingFacts(db, p);
    StagedParts(db, a);
    WriteCommitShape(WithApproval(db, a), a, p, received);
    PersistRedecides(db.proposals, p);
    CommitEffects(db, a, p, received);
    var (next, outcome) := WriteApproval(db, a, p);
    var staged := WithApproval(db, a);
    if outcome.Ok? && Insertable(staged, p.request) {
      var inserted := ApprovalResponse(staged, p, received);
      CommitsFrame(db, Appended(staged, p.request, inserted), next, p.request,
                   CommittedRow(p.request, db.nextId, inserted));
      RowResponse(p.request, db.nextId, inserted);
    } else if outcome.Ok? {
      AdoptsFrame(db, staged, next, p, outcome.value);
    }
  }

  lemma RowResponse(b: Bundle, id: nat, response: Response)
    ensures CommittedRow(b, id, response).response == Some(response)
  {
  }

  lemma CommitsFrame(db: Db, next: Db, later: Db, b: Bundle, r: LedgerRow)
    requires Commits(db, next, b, r) && later.ledger == next.ledger && later.postings == next.postings
    ensures Commits(db, later, b, r)
  {
    hide IsRowOf, InLegOrder, ArePosted;
  }

  lemma AdoptsFrame(db: Db, next: Db, later: Db, p: Proposal, answer: Response)
    requires Adopts(db, next, p, answer) && later.ledger == next.ledger && later.postings == next.postings
    ensures Adopts(db, later, p, answer)
  {
  }

  lemma StagedParts(db: Db, a: DecisionIn)
    requires Inv(db) && !DecisionClash(db, a) && exists p :: p in db.proposals && p.proposalId == a.proposalId
    ensures IdsBelow(WithApproval(db, a)) && RowsComplete(WithApproval(db, a))
    ensures WithApproval(db, a) ==
              db.(decisions := db.decisions + [Decision(a.proposalId, Approve, a.approverId, a.reason)])
  {
    hide DecisionClash;
    InvParts(db);
  }

  lemma PersistRedecides(proposals: seq<Proposal>, p: Proposal)
    ensures forall status, answer, reason, transaction ::
              Redecided(proposals, Persist(proposals, p.proposalId, status, answer, reason, transaction), p, status,
                        answer, reason, transaction)
  {
  }

  /** The three ways the quorum's approval ends. */
  lemma CommitEffects(db: Db, a: DecisionIn, p: Proposal, received: nat)
    requires Inv(db) && p in db.proposals && p.status == Pending && p.proposalId == a.proposalId
    requires received == p.requiredApprovals
    ensures var staged, inserted := WithApproval(db, a), ApprovalResponse(WithApproval(db, a), p, received);
            var replay := Replay(staged.ledger, p.request.sourceSystem, p.request.externalId);
            && (InLedger(db, p.sourceSystem, p.externalId) <==> replay.Some?)
            && (Insertable(staged, p.request) ==> replay.None?)
            && (Insertable(staged, p.request) ==>
                  Commits(db, Appended(staged, p.request, inserted), p.request,
                          CommittedRow(p.request, db.nextId, inserted)))
            && (replay.Some? ==>
                  && replay.value.body.CommittedBody?
                  && Adopts(db, staged, p, AdoptionResponse(p, replay.value, received)))
            && (!Insertable(staged, p.request) && replay.None? ==>
                  || p.request.entityId !in db.entities
                  || exists leg :: leg in p.request.postings && leg.accountId !in db.accounts)
  {
    hide Inv, Commits, DecisionsOn, ApprovalCount, Sort, PostingRows;
    InvParts(db);
    PendingFacts(db, p);
    KeyListed(db, p.request);
    ReplayReports(db, p.sourceSystem, p.externalId);
    AppendedCommits(WithApproval(db, a), p.request, ApprovalResponse(WithApproval(db, a), p, received));
    SameCommit(db, WithApproval(db, a), p.request, ApprovalResponse(WithApproval(db, a), p, received));
  }

  lemma SameCommit(db: Db, staged: Db, b: Bundle, response: Response)
    requires staged.ledger == db.ledger && staged.postings == db.postings && staged.nextId == db.nextId
    ensures var next, r := Appended(staged, b, response), CommittedRow(b, db.nextId, response);
            Commits(staged, next, b, r) ==> Commits(db, next, b, r)
  {
    hide Sort, PostingRows, IsRowOf, InLegOrder, ArePosted;
  }

  // ------------------------------------------------------------------ rejecting

  /** A proposal that is not committed is rejected once, for good and with its reason: the decision is recorded, the
    proposal refused in place and nothing else touched. */
  lemma RejectExactly(db: Db, a: DecisionIn)
    requires Inv(db)
    ensures (forall p :: p in db.proposals ==> p.proposalId != a.proposalId) ==>
              RejectProposal(db, a) == (db, Err(ProposalNotFound))
    ensures forall p :: p in db.proposals && p.proposalId == a.proposalId ==>
              && (p.status == Approved ==> RejectProposal(db, a) == (db, Err(CommittedCannotBeRejected)))
              && (p.status == Refused ==> p.response.Some? && RejectProposal(db, a) == (db, Ok(p.response.value)))
              && (p.status == Pending ==> Rejects(db, a, p, RejectProposal(db, a).0, RejectProposal(db, a).1))
  {
    hide Inv, Rejects, WriteRejection, DecisionsOn;
    InvParts(db);
    forall p | p in db.proposals && p.proposalId == a.proposalId
      ensures FindProposalById(db.proposals, a.proposalId) == Some(p) && p.response.Some?
      ensures p.status == Pending ==> Rejects(db, a, p, WriteRejection(db, a, p).0, WriteRejection(db, a, p).1)
    {
      FindProposalUnique(db.proposals, p);
      AlwaysAnswered(db, p);
      if p.status == Pending {
        RejectionWritten(db, a, p);
      }
    }
  }

  predicate Rejects(db: Db, a: DecisionIn, p: Proposal, next: Db, outcome: Outcome) {
    && outcome.Ok? && outcome.value.status == Rejected && outcome.value.outputHash == Digest(outcome.value.body)
    && outcome.value.body == RejectedBody(p.proposalId, a.reason, p.correlationId)
    && Redecided(db.proposals, next.proposals, p, Refused, outcome.value, a.reason, None)
    && next == db.(proposals := next.proposals,
                   decisions := db.decisions + [Decision(p.proposalId, Reject, a.approverId, a.reason)])
  }

  lemma RejectionWritten(db: Db, a: DecisionIn, p: Proposal)
    requires Inv(db) && p in db.proposals && p.status == Pending && p.proposalId == a.proposalId
    ensures Rejects(db, a, p, WriteRejection(db, a, p).0, WriteRejection(db, a, p).1)
  {
    hide Inv, Persist, DecisionsOn;
    PendingFacts(db, p);
    PersistRedecides(db.proposals, p);
    if a.approverId.Some? && HasDecision(db.decisions, p.proposalId, Reject, a.approverId.value) {
      var d :| d in db.decisions && d.proposalId == p.proposalId && d.action == Reject && d.approverId == a.approverId;
      DecisionListed(db.decisions, p.proposalId, Reject, d);
    }
  }

  // ------------------------------------------------------------------ the quorum over runs

  /** A bundle is proposed under a governing rule; whatever runs afterwards, a row that its proposal commits has
    exactly as many approvals behind it as that rule asks for, by different people when it asks for more than one. */
  lemma QuorumOverRuns(db: Db, calls: seq<Call>, b: Bundle, p: Proposal, rule: PolicyRule, r: LedgerRow)
    requires Inv(db) && RuleIdsUnique(db.rules) && Governs(db, rule, b)
    requires p in Record(db, b).0.proposals && p !in db.proposals
    requires r in Run(Record(db, b).0, calls).ledger && r.response.Some? && r.response.value.body.CommittedBody?
    requires r.response.value.body.proposalId == Some(p.proposalId)
    ensures var decisions, quorum := Run(Record(db, b).0, calls).decisions, Max(1, rule.requiredApprovals);
            && Tally(decisions, p.proposalId, Approve) == quorum
            && (quorum > 1 ==> ApproversDiffer(decisions, p.proposalId))
  {
    hide Inv, Governs, Record, Run, Step, Applies, DecisionsOn, Extends, Tally, ApproversDiffer, RuleIdsUnique;
    var duplicates := RecordedProposal(db, b, p);
    var start := Record(db, b).0;
    RecordKeepsInv(db, b);
    RunKeepsInv(start, calls);
    RunExtends(start, calls);
    var end := Run(start, calls);
    var q := LaterVersion(start, end, p);
    VouchedApprovals(end, q, r);
    TallyCounts(end.decisions, p.proposalId, Approve);
    if q.requiredApprovals > 1 {
      DistinctMeansDiffer(end.decisions, p.proposalId);
    }
  }

  lemma LaterVersion(start: Db, end: Db, p: Proposal) returns (q: Proposal)
    requires Extends(start, end) && p in start.proposals
    ensures q in end.proposals && q.proposalId == p.proposalId && q.requiredApprovals == p.requiredApprovals
  {
    hide LegsKept, PeriodsAdvance;
    var i :| 0 <= i < |start.proposals| && start.proposals[i] == p;
    assert Advances(start.proposals[i], end.proposals[i]);
    q := end.proposals[i];
  }

  lemma VouchedApprovals(db: Db, q: Proposal, r: LedgerRow)
    requires Inv(db) && q in db.proposals && r in db.ledger
    requires r.response.Some? && r.response.value.body.CommittedBody?
    requires r.response.value.body.proposalId == Some(q.proposalId)
    ensures var approvals := DecisionsOn(db.decisions, q.proposalId, Approve);
            |approvals| == q.requiredApprovals && (q.requiredApprovals > 1 ==> DistinctApprovers(approvals))
  {
    hide Inv, DecisionsOn;
    InvParts(db);
    RowVouched(db, r);
    var x :| x in db.proposals && Vouches(db.postings, x, r);
    FindProposalUnique(db.proposals, x);
    FindProposalUnique(db.proposals, q);
    InvGives(db, q);
  }
}
