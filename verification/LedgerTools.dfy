/** The write tools as functions from one database state to the next: what each call returns and what it
  leaves behind, rolled back to the state it started from whenever it raises
  (src/capital_os/domain/ledger/service.py, approval/service.py, periods/service.py, db/session.py). */
module LedgerTools {
  import opened Wrappers
  import opened Ordering
  import opened Money
  import opened LedgerTables

  datatype Failure =
    | OnlyUsd
    | Unbalanced
    | PeriodClosedRequiresAdjusting
    | PeriodLocked
    | IntegrityFailure
    | ProposalNotFound
    | RejectedCannotBeApproved
    | CommittedCannotBeRejected
    | ApproverRequired
    | MissingResponse

  type Outcome = Result<Response, Failure>

  // ------------------------------------------------------------------ checks made before any table is read

  predicate AllUsd(postings: seq<Posting>) {
    forall p :: p in postings ==> p.currency == "USD"
  }

  /** ensure_balanced */
  predicate IsBalanced(postings: seq<Posting>) {
    SumBy(Units, postings) == 0
  }

  function AbsoluteUnits(p: Posting): int {
    Abs(Units(p))
  }

  /** transaction_impact_amount: half the absolute total, rounded. */
  function Impact(postings: seq<Posting>): int {
    RoundHalfEven(SumBy(AbsoluteUnits, postings) as real / 2.0)
  }

  // ------------------------------------------------------------------ insert_transaction_bundle

  function MemoText(p: Posting): string {
    match p.memo
    case None => ""
    case Some(m) => m
  }

  /** Postings are inserted by (account_id, text of the amount, memo). */
  predicate PostingLe(a: Posting, b: Posting) {
    if a.accountId != b.accountId then StrLe(a.accountId, b.accountId)
    else if a.amountText != b.amountText then StrLe(a.amountText, b.amountText)
    else StrLe(MemoText(a), MemoText(b))
  }

  function HeaderRow(b: Bundle, transactionId: nat): LedgerRow {
    LedgerRow(transactionId, b.sourceSystem, b.externalId, b.date, b.description, b.correlationId, b.entityId,
              b.isAdjusting, b.adjustingReason, None)
  }

  function PostingRowOf(p: Posting, postingId: nat, transactionId: nat): PostingRow {
    PostingRow(postingId, transactionId, p.accountId, Units(p), p.currency, p.memo)
  }

  function PostingRows(postings: seq<Posting>, transactionId: nat, firstId: nat): seq<PostingRow> {
    seq(|postings|, i requires 0 <= i < |postings| => PostingRowOf(postings[i], firstId + i, transactionId))
  }

  function Ids(first: nat, count: nat): seq<nat> {
    seq(count, i requires 0 <= i => first + i)
  }

  /** A posting row the table accepts: a known account, and USD. */
  predicate Acceptable(db: Db, p: Posting) {
    p.accountId in db.accounts && p.currency == "USD"
  }

  function AcceptedPrefix(db: Db, postings: seq<Posting>): (n: nat)
    ensures n <= |postings|
    ensures forall i :: 0 <= i < n ==> Acceptable(db, postings[i])
    ensures n < |postings| ==> !Acceptable(db, postings[n])
  {
    if postings == [] || !Acceptable(db, postings[0]) then 0 else 1 + AcceptedPrefix(db, postings[1..])
  }

  /** Either every row went in, or a constraint failed after `staged` had been reached. */
  datatype InsertResult =
    | Inserted(db: Db, transactionId: nat, postingIds: seq<nat>)
    | Violated(staged: Db)

  function InsertBundle(db: Db, b: Bundle): InsertResult {
    if FindRow(db.ledger, b.sourceSystem, b.externalId).Some? || b.entityId !in db.entities then Violated(db)
    else
      var postings := Sort(PostingLe, b.postings);
      var n := AcceptedPrefix(db, postings);
      var id := db.nextId;
      var staged := db.(
        ledger := db.ledger + [HeaderRow(b, id)],
        postings := db.postings + PostingRows(postings[..n], id, id + 1),
        nextId := id + 1 + n);
      if n < |postings| then Violated(staged) else Inserted(staged, id, Ids(id + 1, n))
  }

  /** save_transaction_response */
  function SaveResponse(ledger: seq<LedgerRow>, transactionId: nat, response: Response): seq<LedgerRow> {
    seq(|ledger|, i requires 0 <= i < |ledger| =>
      if ledger[i].transactionId == transactionId then ledger[i].(response := Some(response)) else ledger[i])
  }

  // ------------------------------------------------------------------ proposals

  /** persist_proposal_result */
  function Persist(
    proposals: seq<Proposal>, id: nat, status: ProposalStatus, response: Response,
    reason: Option<string>, approved: Option<nat>): seq<Proposal>
  {
    seq(|proposals|, i requires 0 <= i < |proposals| =>
      if proposals[i].proposalId == id
      then proposals[i].(status := status, response := Some(response), reason := reason,
                         approvedTransaction := approved)
      else proposals[i])
  }

  function Required(p: Proposal): nat {
    Max(1, p.requiredApprovals)
  }

  /** _proposal_response_payload: the stored response, or a first one. */
  function ProposalResponse(p: Proposal, duplicates: Option<set<nat>>): Response {
    match p.response
    case Some(r) => r
    case None =>
      Respond(Proposed,
              ProposedBody(p.proposalId, p.correlationId, Some(p.threshold), Some(p.impact), p.matchedRule,
                           if p.requiredApprovals == 0 then 1 else p.requiredApprovals, 0, duplicates))
  }

  /** Answering with a proposal, and storing the answer when none is stored yet. */
  function AnswerWithProposal(db: Db, p: Proposal, duplicates: Option<set<nat>>): (Db, Outcome) {
    var response := ProposalResponse(p, duplicates);
    (if p.response.Some? then db
     else db.(proposals := Persist(db.proposals, p.proposalId, Pending, response, None, None)),
     Ok(response))
  }

  // ------------------------------------------------------------------ the gate

  /** enforce_period_write_constraints: refuse, or say whether approval is forced. */
  function PeriodGate(db: Db, b: Bundle): Result<bool, Failure> {
    var key := (PeriodOf(b.date), b.entityId);
    if key !in db.periods then Ok(false)
    else
      match db.periods[key]
      case Open => Ok(false)
      case Closed => if b.isAdjusting then Ok(true) else Err(PeriodClosedRequiresAdjusting)
      case Locked => if b.overrideLock then Ok(true) else Err(PeriodLocked)
  }

  datatype PolicyDecision = PolicyDecision(approvalRequired: bool, threshold: int, required: nat,
                                           matchedRule: Option<string>)

  /** The decision once a rule, or none, has been selected. */
  function PolicyFrom(fallbackThreshold: nat, impact: int, force: bool, selected: Option<PolicyRule>): PolicyDecision {
    match selected
    case None => PolicyDecision(force || impact > fallbackThreshold, fallbackThreshold, 1, None)
    case Some(rule) =>
      PolicyDecision(force || rule.velocityCount.Some? || impact > rule.threshold,
                     rule.threshold, Max(1, rule.requiredApprovals), Some(rule.ruleId))
  }

  /** evaluate_transaction_policy */
  function EvaluatePolicy(db: Db, b: Bundle, impact: int, force: bool): PolicyDecision {
    PolicyFrom(db.fallbackThreshold, impact, force, FirstMatch(db, Sort(RuleLe, ActiveRules(db.rules)), b))
  }

  /** What the gate makes of a bundle. */
  datatype Gate =
    | Refuse(failure: Failure)
    | Propose(policy: PolicyDecision, duplicates: Option<set<nat>>)
    | Direct

  function GateOf(db: Db, b: Bundle): Gate {
    match PeriodGate(db, b)
    case Err(e) => Refuse(e)
    case Ok(force) =>
      var policy := EvaluatePolicy(db, b, Impact(b.postings), force);
      var duplicates := DuplicateMatches(db, b.date, b.postings);
      if policy.approvalRequired || duplicates != {}
      then Propose(policy, if duplicates == {} then None else Some(duplicates))
      else Direct
  }

  // ------------------------------------------------------------------ record_transaction_bundle

  function NewProposal(db: Db, b: Bundle, policy: PolicyDecision): Proposal {
    Proposal(db.nextId, b.sourceSystem, b.externalId, b.correlationId, policy.threshold, Impact(b.postings),
             Canonical(b), Pending, None, None, None, policy.matchedRule, Max(1, policy.required))
  }

  /** The write phase of proposing: insert the proposal and its first response; None when a constraint fails. */
  function WriteProposal(db: Db, b: Bundle, policy: PolicyDecision,
                         duplicates: Option<set<nat>>): Option<(Db, Outcome)> {
    if FindProposal(db.proposals, b.sourceSystem, b.externalId).Some? || b.entityId !in db.entities then None
    else
      var p := NewProposal(db, b, policy);
      var db1 := db.(proposals := db.proposals + [p], nextId := db.nextId + 1);
      Some(AnswerWithProposal(db1, p, duplicates))
  }

  /** The write phase of committing directly; None when a constraint fails and the transaction rolls back. */
  function WriteDirect(db: Db, b: Bundle): Option<(Db, Outcome)> {
    match InsertBundle(db, b)
    case Violated(_) => None
    case Inserted(db1, id, postingIds) =>
      var response := Respond(Committed, CommittedBody(None, id, postingIds, None, None, b.correlationId));
      Some((db1.(ledger := SaveResponse(db1.ledger, id, response)), Ok(response)))
  }

  /** The second transaction, after an IntegrityError rolled the first back. */
  function Recover(db: Db, b: Bundle): (Db, Outcome) {
    match Replay(db.ledger, b.sourceSystem, b.externalId)
    case Some(r) => (db, Ok(r))
    case None =>
      match FindProposal(db.proposals, b.sourceSystem, b.externalId)
      case None => (db, Err(IntegrityFailure))
      case Some(p) =>
        var duplicates := DuplicateMatches(db, b.date, b.postings);
        AnswerWithProposal(db, p, if duplicates == {} then None else Some(duplicates))
  }

  function WriteOrRecover(db: Db, b: Bundle, written: Option<(Db, Outcome)>): (Db, Outcome) {
    match written
    case Some(result) => result
    case None => Recover(db, b)
  }

  function Record(db: Db, b: Bundle): (Db, Outcome) {
    if !AllUsd(b.postings) then (db, Err(OnlyUsd))
    else if !IsBalanced(b.postings) then (db, Err(Unbalanced))
    else
      match Replay(db.ledger, b.sourceSystem, b.externalId)
      case Some(r) => (db, Ok(r))
      case None =>
        match GateOf(db, b)
        case Refuse(e) => (db, Err(e))
        case Direct => WriteOrRecover(db, b, WriteDirect(db, b))
        case Propose(policy, duplicates) =>
          match FindProposal(db.proposals, b.sourceSystem, b.externalId)
          case Some(p) => AnswerWithProposal(db, p, duplicates)
          case None => WriteOrRecover(db, b, WriteProposal(db, b, policy, duplicates))
  }

  // ------------------------------------------------------------------ approve_proposed_transaction

  datatype DecisionIn = DecisionIn(proposalId: nat, approverId: Option<string>, reason: Option<string>)

  function PendingResponse(p: Proposal, received: nat): Response {
    Respond(Proposed, ProposedBody(p.proposalId, p.correlationId, None, None, None, Required(p), received, None))
  }

  /** The decision insert: refused by the unique index when this approver already decided. */
  predicate DecisionClash(db: Db, a: DecisionIn) {
    a.approverId.Some? && HasDecision(db.decisions, a.proposalId, Approve, a.approverId.value)
  }

  function WithApproval(db: Db, a: DecisionIn): Db {
    if DecisionClash(db, a) then db
    else db.(decisions := db.decisions + [Decision(a.proposalId, Approve, a.approverId, a.reason)])
  }

  /** The commit half of the write phase: insert the stored bundle, or adopt the row that beat it. */
  function WriteCommit(db: Db, a: DecisionIn, p: Proposal, received: nat): Result<(Db, Response), Failure> {
    match InsertBundle(db, p.request)
    case Inserted(db1, id, postingIds) =>
      var body := CommittedBody(Some(p.proposalId), id, postingIds, Some(Required(p)), Some(received), p.correlationId);
      var response := Respond(Committed, body);
      var db2 := db1.(ledger := SaveResponse(db1.ledger, id, response));
      Ok((db2.(proposals := Persist(db2.proposals, p.proposalId, Approved, response, a.reason, Some(id))), response))
    case Violated(staged) =>
      match Replay(staged.ledger, p.request.sourceSystem, p.request.externalId)
      case None => Err(IntegrityFailure)
      case Some(r) =>
        if !r.body.CommittedBody? then Err(MissingResponse)
        else
          var body := CommittedBody(Some(p.proposalId), r.body.transactionId, r.body.postingIds,
                                    Some(Required(p)), Some(received), p.correlationId);
          var response := Response(Committed, body, r.outputHash);
          Ok((staged.(proposals := Persist(staged.proposals, p.proposalId, Approved, response, a.reason,
                                           Some(r.body.transactionId))), response))
  }

  /** The write phase of approving, for the proposal `p` read earlier. */
  function WriteApproval(db: Db, a: DecisionIn, p: Proposal): (Db, Outcome) {
    if DecisionClash(db, a) && !Truthy(a.approverId) then (db, Err(IntegrityFailure))
    else
      var db1 := WithApproval(db, a);
      var received := ApprovalCount(db1.decisions, p.proposalId, Required(p));
      if received < Required(p) then
        var response := PendingResponse(p, received);
        (db1.(proposals := Persist(db1.proposals, p.proposalId, Pending, response, a.reason, None)), Ok(response))
      else
        match WriteCommit(db1, a, p, received)
        case Err(e) => (db, Err(e))
        case Ok((db2, response)) => (db2, Ok(response))
  }

  /** What approving does with the proposal as read: an immediate answer, or None to go on to the write. */
  function ApproveRead(p: Proposal, a: DecisionIn): Option<Outcome> {
    if p.status == Refused then Some(Err(RejectedCannotBeApproved))
    else if Required(p) > 1 && !Truthy(a.approverId) then Some(Err(ApproverRequired))
    else if p.status == Approved then
      Some(match p.response case None => Err(MissingResponse) case Some(r) => Ok(r))
    else None
  }

  predicate AlreadyApproved(db: Db, a: DecisionIn) {
    Truthy(a.approverId) && HasDecision(db.decisions, a.proposalId, Approve, a.approverId.value)
  }

  function ApproveProposal(db: Db, a: DecisionIn): (Db, Outcome) {
    match FindProposalById(db.proposals, a.proposalId)
    case None => (db, Err(ProposalNotFound))
    case Some(p) =>
      match ApproveRead(p, a)
      case Some(answer) => (db, answer)
      case None =>
        if AlreadyApproved(db, a)
        then (db, Ok(PendingResponse(p, ApprovalCount(db.decisions, p.proposalId, Required(p)))))
        else WriteApproval(db, a, p)
  }

  // ------------------------------------------------------------------ reject_proposed_transaction

  function RejectRead(p: Proposal): Option<Outcome> {
    if p.status == Approved then Some(Err(CommittedCannotBeRejected))
    else if p.status == Refused && p.response.Some? then Some(Ok(p.response.value))
    else None
  }

  function WriteRejection(db: Db, a: DecisionIn, p: Proposal): (Db, Outcome) {
    var response := Respond(Rejected, RejectedBody(p.proposalId, a.reason, p.correlationId));
    if a.approverId.Some? && HasDecision(db.decisions, p.proposalId, Reject, a.approverId.value)
    then (db, Err(IntegrityFailure))
    else
      (db.(proposals := Persist(db.proposals, p.proposalId, Refused, response, a.reason, None),
           decisions := db.decisions + [Decision(p.proposalId, Reject, a.approverId, a.reason)]),
       Ok(response))
  }

  function RejectProposal(db: Db, a: DecisionIn): (Db, Outcome) {
    match FindProposalById(db.proposals, a.proposalId)
    case None => (db, Err(ProposalNotFound))
    case Some(p) =>
      match RejectRead(p)
      case Some(answer) => (db, answer)
      case None => WriteRejection(db, a, p)
  }

  // ------------------------------------------------------------------ close_period and lock_period

  /** _upsert_period_status: locked is final, closed stays closed, lock overrides the rest. */
  function UpsertPeriod(db: Db, key: PeriodKey, entityId: string, status: PeriodStatus): Db {
    if (key, entityId) in db.periods && (db.periods[(key, entityId)] == Locked || db.periods[(key, entityId)] == status)
    then db
    else db.(periods := db.periods[(key, entityId) := status])
  }

  // ------------------------------------------------------------------ calls and runs

  /** One tool call, or a change to the reference tables the tools only read. */
  datatype Call =
    | RecordCall(bundle: Bundle)
    | ApproveCall(decision: DecisionIn)
    | RejectCall(decision: DecisionIn)
    | ClosePeriodCall(key: PeriodKey, entityId: string)
    | LockPeriodCall(key: PeriodKey, entityId: string)
    | AddAccount(accountId: string)
    | AddEntity(entityId: string)
    | SetPolicy(rules: seq<PolicyRule>, fallbackThreshold: nat)

  function Step(db: Db, call: Call): Db {
    match call
    case RecordCall(b) => Record(db, b).0
    case ApproveCall(a) => ApproveProposal(db, a).0
    case RejectCall(a) => RejectProposal(db, a).0
    case ClosePeriodCall(key, entity) => UpsertPeriod(db, key, entity, Closed)
    case LockPeriodCall(key, entity) => UpsertPeriod(db, key, entity, Locked)
    case AddAccount(id) => db.(accounts := db.accounts + {id})
    case AddEntity(id) => db.(entities := db.entities + {id})
    case SetPolicy(rules, threshold) => db.(rules := rules, fallbackThreshold := threshold)
  }

  /** A run: any calls, one at a time. */
  function Run(db: Db, calls: seq<Call>): Db
    decreases |calls|
  {
    if calls == [] then db else Run(Step(db, calls[0]), calls[1..])
  }

  /** A migrated database before any call. */
  predicate Fresh(db: Db) {
    db.ledger == [] && db.postings == [] && db.proposals == [] && db.decisions == [] && db.periods == map[]
  }
}
