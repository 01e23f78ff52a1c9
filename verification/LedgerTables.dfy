/** The ledger's tables and the queries over them (migrations/0001, 0003, 0005, 0006 and
  src/capital_os/domain/ledger/repository.py, approval/repository.py, periods and policy services).
  A table is a sequence of rows in insertion order. */
module LedgerTables {
  import opened Wrappers
  import opened Ordering
  import opened Money
  import opened Calendar
  import opened DecimalText

  // ------------------------------------------------------------------ payloads

  /** A UTC instant: its day and the second within it. */
  datatype Timestamp = Timestamp(day: Day, second: nat)

  /** One leg as received: the exact decimal and the text it was written in. */
  datatype Posting = Posting(accountId: string, amount: real, amountText: string, currency: string,
                             memo: Option<string>)

  datatype Bundle = Bundle(
    sourceSystem: string, externalId: string, date: Timestamp, description: string, postings: seq<Posting>,
    entityId: string, category: Option<string>, riskBand: Option<string>,
    isAdjusting: bool, adjustingReason: Option<string>, overrideLock: bool, correlationId: string)

  function Units(p: Posting): int {
    Normalize(p.amount)
  }

  /** A leg as `canonical_json` stores it: quantized to four places. */
  function CanonicalPosting(p: Posting): Posting {
    p.(amount := Value(Units(p)), amountText := AmountText(Units(p)))
  }

  function Canonical(b: Bundle): Bundle {
    b.(postings := seq(|b.postings|, i requires 0 <= i < |b.postings| => CanonicalPosting(b.postings[i])))
  }

  // ------------------------------------------------------------------ responses

  /** A response's fields other than its status and hash. */
  datatype Body =
    | CommittedBody(
        proposalId: Option<nat>, transactionId: nat, postingIds: seq<nat>,
        required: Option<nat>, received: Option<nat>, correlationId: string)
    | ProposedBody(
        proposalId': nat, correlationId: string, threshold: Option<int>, impact: Option<int>,
        matchedRule: Option<string>, required': nat, received': nat, duplicates: Option<set<nat>>)
    | RejectedBody(proposalId': nat, reason: Option<string>, correlationId: string)

  datatype ResponseStatus = Committed | IdempotentReplay | Proposed | Rejected

  /** payload_hash, taken as an ideal digest: equal bodies, equal digests. */
  datatype Digest = Digest(body: Body)

  datatype Response = Response(status: ResponseStatus, body: Body, outputHash: Digest)

  function Respond(status: ResponseStatus, body: Body): Response {
    Response(status, body, Digest(body))
  }

  // ------------------------------------------------------------------ rows

  datatype LedgerRow = LedgerRow(
    transactionId: nat, sourceSystem: string, externalId: string, date: Timestamp, description: string,
    correlationId: string, entityId: string, isAdjusting: bool, adjustingReason: Option<string>,
    response: Option<Response>)

  datatype PostingRow = PostingRow(
    postingId: nat, transactionId: nat, accountId: string, amount: int, currency: string, memo: Option<string>)

  datatype ProposalStatus = Pending | Approved | Refused

  datatype Proposal = Proposal(
    proposalId: nat, sourceSystem: string, externalId: string, correlationId: string,
    threshold: int, impact: int, request: Bundle, status: ProposalStatus, reason: Option<string>,
    approvedTransaction: Option<nat>, response: Option<Response>, matchedRule: Option<string>, requiredApprovals: nat)

  datatype Action = Approve | Reject

  datatype Decision = Decision(proposalId: nat, action: Action, approverId: Option<string>, reason: Option<string>)

  datatype PeriodKey = PeriodKey(year: int, month: int)

  datatype PeriodStatus = Open | Closed | Locked

  datatype PolicyRule = PolicyRule(
    ruleId: string, priority: int, toolName: Option<string>, entityId: Option<string>,
    category: Option<string>, riskBand: Option<string>, velocityCount: Option<int>, velocityWindow: Option<int>,
    threshold: int, requiredApprovals: int, active: bool)

  datatype Db = Db(
    accounts: set<string>, entities: set<string>, rules: seq<PolicyRule>, fallbackThreshold: nat,
    periods: map<(PeriodKey, string), PeriodStatus>,
    ledger: seq<LedgerRow>, postings: seq<PostingRow>,
    proposals: seq<Proposal>, decisions: seq<Decision>, nextId: nat)

  // ------------------------------------------------------------------ ledger queries

  predicate HasKey(r: LedgerRow, sourceSystem: string, externalId: string) {
    r.sourceSystem == sourceSystem && r.externalId == externalId
  }

  /** fetch_transaction_by_external_id */
  function FindRow(ledger: seq<LedgerRow>, sourceSystem: string, externalId: string): (r: Option<LedgerRow>)
    ensures r.Some? ==> r.value in ledger && HasKey(r.value, sourceSystem, externalId)
    ensures r.None? <==> forall x :: x in ledger ==> !HasKey(x, sourceSystem, externalId)
  {
    if ledger == [] then None
    else if HasKey(ledger[0], sourceSystem, externalId) then Some(ledger[0])
    else FindRow(ledger[1..], sourceSystem, externalId)
  }

  /** resolve_transaction_idempotency: the saved response, marked as a replay; None also when it is unsaved. */
  function Replay(ledger: seq<LedgerRow>, sourceSystem: string, externalId: string): Option<Response> {
    match FindRow(ledger, sourceSystem, externalId)
    case None => None
    case Some(row) =>
      match row.response
      case None => None
      case Some(saved) => Some(saved.(status := IdempotentReplay))
  }

  /** The join of one posting with its transaction header, restricted to rows dated on or before `asOf`. */
  predicate PostedBy(ledger: seq<LedgerRow>, p: PostingRow, asOf: Day) {
    exists r :: r in ledger && r.transactionId == p.transactionId && NotAfter(r.date.day, asOf)
  }

  /** One account's ledger balance at the end of a day. */
  function Balance(db: Db, accountId: string, asOf: Day): int {
    SumBy(PostedTo(db.ledger, accountId, asOf), db.postings)
  }

  function PostedTo(ledger: seq<LedgerRow>, accountId: string, asOf: Day): PostingRow -> int {
    (p: PostingRow) => if p.accountId == accountId && PostedBy(ledger, p, asOf) then p.amount else 0
  }

  // ------------------------------------------------------------------ duplicate risk

  /** The distinct (account, normalised amount) pairs of a bundle. */
  function MatchKeys(postings: seq<Posting>): set<(string, int)> {
    set p | p in postings :: (p.accountId, Units(p))
  }

  /** The distinct key texts one transaction's postings share with the required keys. */
  function MatchedTexts(rows: seq<PostingRow>, transactionId: nat, keys: set<(string, int)>): set<string> {
    set p | p in rows && p.transactionId == transactionId && (p.accountId, p.amount) in keys
      :: KeyText(p.accountId, p.amount)
  }

  /** find_duplicate_risk_matches: same UTC day, and as many distinct matched keys as the bundle has. */
  function DuplicateMatches(db: Db, date: Timestamp, postings: seq<Posting>): set<nat> {
    var keys := MatchKeys(postings);
    if keys == {} then {}
    else
      set r | r in db.ledger && r.date.day == date.day && |MatchedTexts(db.postings, r.transactionId, keys)| == |keys|
        :: r.transactionId
  }

  // ------------------------------------------------------------------ proposals and decisions

  function FindProposal(proposals: seq<Proposal>, sourceSystem: string, externalId: string): (r: Option<Proposal>)
    ensures r.Some? ==> r.value in proposals && r.value.sourceSystem == sourceSystem && r.value.externalId == externalId
    ensures r.None? <==> forall x :: x in proposals ==> x.sourceSystem != sourceSystem || x.externalId != externalId
  {
    if proposals == [] then None
    else if proposals[0].sourceSystem == sourceSystem && proposals[0].externalId == externalId then Some(proposals[0])
    else FindProposal(proposals[1..], sourceSystem, externalId)
  }

  function FindProposalById(proposals: seq<Proposal>, id: nat): (r: Option<Proposal>)
    ensures r.Some? ==> r.value in proposals && r.value.proposalId == id
    ensures r.None? <==> forall x :: x in proposals ==> x.proposalId != id
  {
    if proposals == [] then None
    else if proposals[0].proposalId == id then Some(proposals[0])
    else FindProposalById(proposals[1..], id)
  }

  /** The decisions of one kind on one proposal. */
  function DecisionsOn(decisions: seq<Decision>, id: nat, action: Action): seq<Decision> {
    if decisions == [] then []
    else
      var last := decisions[|decisions| - 1];
      DecisionsOn(decisions[..|decisions| - 1], id, action)
      + (if last.proposalId == id && last.action == action then [last] else [])
  }

  /** A non-empty approver id, in Python's sense of truth. */
  predicate Truthy(id: Option<string>) {
    id.Some? && id.value != ""
  }

  predicate HasDecision(decisions: seq<Decision>, id: nat, action: Action, approver: string) {
    exists d :: d in decisions && d.proposalId == id && d.action == action && d.approverId == Some(approver)
  }

  /** _approval_count: every approval for a single-approver proposal, distinct named approvers otherwise. */
  function ApprovalCount(decisions: seq<Decision>, id: nat, required: nat): nat {
    var approvals := DecisionsOn(decisions, id, Approve);
    if required <= 1 then |approvals|
    else |set d | d in approvals && d.approverId.Some? :: d.approverId.value|
  }

  // ------------------------------------------------------------------ periods

  function PeriodOf(t: Timestamp): PeriodKey {
    PeriodKey(t.day.year, t.day.month)
  }

  // ------------------------------------------------------------------ policy

  /** Priority first, then rule id. */
  predicate RuleLe(a: PolicyRule, b: PolicyRule) {
    a.priority < b.priority || (a.priority == b.priority && StrLe(a.ruleId, b.ruleId))
  }

  function ActiveRules(rules: seq<PolicyRule>): seq<PolicyRule> {
    if rules == [] then []
    else (if rules[0].active then [rules[0]] else []) + ActiveRules(rules[1..])
  }

  /** An absent or empty criterion matches anything. */
  predicate Allows(criterion: Option<string>, actual: Option<string>) {
    Truthy(criterion) ==> criterion == actual
  }

  function Instant(t: Timestamp): int {
    Ordinal(t.day) * 86400 + t.second
  }

  function RowsOf(ledger: seq<LedgerRow>, sourceSystem: string, entityId: string, from: int, to: int): nat {
    if ledger == [] then 0
    else
      var r := ledger[0];
      (if r.sourceSystem == sourceSystem && r.entityId == entityId && from <= Instant(r.date) <= to then 1 else 0)
      + RowsOf(ledger[1..], sourceSystem, entityId, from, to)
  }

  function RowsEver(ledger: seq<LedgerRow>, sourceSystem: string, entityId: string): nat {
    if ledger == [] then 0
    else
      (if ledger[0].sourceSystem == sourceSystem && ledger[0].entityId == entityId then 1 else 0)
      + RowsEver(ledger[1..], sourceSystem, entityId)
  }

  /** _velocity_match: enough rows in the window, or ever when the window holds none. */
  predicate VelocityMatch(db: Db, rule: PolicyRule, b: Bundle) {
    rule.velocityCount.Some? && rule.velocityWindow.Some? ==>
      var to := Instant(b.date);
      var inWindow := RowsOf(db.ledger, b.sourceSystem, b.entityId, to - rule.velocityWindow.value, to);
      (if inWindow == 0 then RowsEver(db.ledger, b.sourceSystem, b.entityId) else inWindow) >= rule.velocityCount.value
  }

  const RECORD_TOOL := "record_transaction_bundle"

  /** What _rule_matches asks of the bundle alone. */
  predicate CriteriaMatch(rule: PolicyRule, b: Bundle) {
    && Allows(rule.toolName, Some(RECORD_TOOL))
    && Allows(rule.entityId, Some(b.entityId))
    && Allows(rule.category, b.category)
    && Allows(rule.riskBand, b.riskBand)
  }

  /** _rule_matches */
  predicate RuleMatches(db: Db, rule: PolicyRule, b: Bundle) {
    CriteriaMatch(rule, b) && VelocityMatch(db, rule, b)
  }

  function FirstMatch(db: Db, ordered: seq<PolicyRule>, b: Bundle): Option<PolicyRule> {
    if ordered == [] then None
    else if RuleMatches(db, ordered[0], b) then Some(ordered[0])
    else FirstMatch(db, ordered[1..], b)
  }
}
