/** The tools as the services run them: one store whose tables the methods change statement by statement, with a
  saved copy to return to when a transaction fails. Each method is proved to do what the tool functions say. */
module LedgerStore {
  import opened Wrappers
  import opened Ordering
  import opened DecimalText
  import opened LedgerTables
  import opened LedgerTools
  import opened LedgerInvariants
  import opened ProposalLifecycle

  /** What close_period and lock_period report. */
  datatype PeriodResult = NowClosed | NowLocked | AlreadyClosed | AlreadyLocked

  class Store {
    var accounts: set<string>
    var entities: set<string>
    var rules: seq<PolicyRule>
    var fallbackThreshold: nat
    var periods: map<(PeriodKey, string), PeriodStatus>
    var ledger: seq<LedgerRow>
    var postings: seq<PostingRow>
    var proposals: seq<Proposal>
    var decisions: seq<Decision>
    var nextId: nat

    constructor (accounts: set<string>, entities: set<string>, rules: seq<PolicyRule>, fallbackThreshold: nat)
      ensures Fresh(State()) && Inv(State())
      ensures State().accounts == accounts && State().entities == entities
      ensures State().rules == rules && State().fallbackThreshold == fallbackThreshold
    {
      this.accounts, this.entities, this.rules, this.fallbackThreshold := accounts, entities, rules, fallbackThreshold;
      this.periods, this.ledger, this.postings, this.proposals, this.decisions, this.nextId := map[], [], [], [], [], 0;
      new;
      FreshInv(State());
    }

    function State(): Db
      reads this
    {
      Db(accounts, entities, rules, fallbackThreshold, periods, ledger, postings, proposals, decisions, nextId)
    }

    /** conn.rollback() */
    method Rollback(saved: Db)
      modifies this
      ensures State() == saved
    {
      accounts, entities, rules, fallbackThreshold :=
          saved.accounts, saved.entities, saved.rules, saved.fallbackThreshold;
      periods, ledger, postings := saved.periods, saved.ledger, saved.postings;
      proposals, decisions, nextId := saved.proposals, saved.decisions, saved.nextId;
    }

    // ---------------------------------------------------------------- reading

    /** _load_active_rules */
    method LoadActiveRules() returns (loaded: seq<PolicyRule>)
      ensures loaded == Sort(RuleLe, ActiveRules(rules))
    {
      var active: seq<PolicyRule> := [];
      var i := |rules|;
      while i > 0
        invariant 0 <= i <= |rules|
        invariant active == ActiveRules(rules[i..])
      {
        i := i - 1;
        assert rules[i..][1..] == rules[i + 1..];
        if rules[i].active {
          active := [rules[i]] + active;
        }
      }
      loaded := Sort(RuleLe, active);
    }

    /** evaluate_transaction_policy */
    method EvaluateTransactionPolicy(b: Bundle, impact: int, force: bool) returns (decision: PolicyDecision)
      ensures decision == EvaluatePolicy(State(), b, impact, force)
    {
      var threshold: int, required, matched, velocityForced := fallbackThreshold, 1, None, false;
      var ordered := LoadActiveRules();
      var i := 0;
      while i < |ordered|
        invariant 0 <= i <= |ordered|
        invariant FirstMatch(State(), ordered, b) == FirstMatch(State(), ordered[i..], b)
      {
        var rule := ordered[i];
        assert ordered[i..][1..] == ordered[i + 1..];
        if RuleMatches(State(), rule, b) {
          threshold, required, matched := rule.threshold, Max(1, rule.requiredApprovals), Some(rule.ruleId);
          velocityForced := rule.velocityCount.Some?;
          assert FirstMatch(State(), ordered, b) == Some(rule);
          return PolicyDecision(force || velocityForced || impact > threshold, threshold, required, matched);
        }
        i := i + 1;
      }
      assert FirstMatch(State(), ordered, b) == None;
      decision := PolicyDecision(force || velocityForced || impact > threshold, threshold, required, matched);
    }

    /** The counting query, one transaction and one posting at a time. */
    method FindDuplicateRiskMatches(date: Timestamp, legs: seq<Posting>) returns (matches: set<nat>)
      ensures matches == DuplicateMatches(State(), date, legs)
    {
      var keys := MatchKeys(legs);
      if keys == {} {
        return {};
      }
      matches := {};
      for i := 0 to |ledger|
        invariant matches == set r | r in ledger[..i] && r.date.day == date.day
                                     && |MatchedTexts(postings, r.transactionId, keys)| == |keys| :: r.transactionId
      {
        var row := ledger[i];
        var texts: set<string> := {};
        for j := 0 to |postings|
          invariant texts == MatchedTexts(postings[..j], row.transactionId, keys)
        {
          var p := postings[j];
          assert postings[..j + 1] == postings[..j] + [p];
          if p.transactionId == row.transactionId && (p.accountId, p.amount) in keys {
            texts := texts + {KeyText(p.accountId, p.amount)};
          }
        }
        assert postings[..|postings|] == postings;
        assert ledger[..i + 1] == ledger[..i] + [row];
        if row.date.day == date.day && |texts| == |keys| {
          matches := matches + {row.transactionId};
        }
      }
      assert ledger[..|ledger|] == ledger;
    }

    // ---------------------------------------------------------------- writing

    /** The posting inserts, up to the first row a constraint refuses. */
    method InsertPostings(legs: seq<Posting>, transactionId: nat) returns (postingIds: seq<nat>)
      modifies this`postings, this`nextId
      ensures |postingIds| == AcceptedPrefix(old(State()), legs)
      ensures postings == old(postings) + PostingRows(legs[..|postingIds|], transactionId, old(nextId))
      ensures postingIds == Ids(old(nextId), |postingIds|) && nextId == old(nextId) + |postingIds|
    {
      postingIds := [];
      var i := 0;
      while i < |legs| && Acceptable(State(), legs[i])
        invariant 0 <= i <= |legs|
        invariant forall j :: 0 <= j < i ==> Acceptable(old(State()), legs[j])
        invariant postings == old(postings) + PostingRows(legs[..i], transactionId, old(nextId))
        invariant postingIds == Ids(old(nextId), i) && nextId == old(nextId) + i
      {
        postings := postings + [PostingRowOf(legs[i], nextId, transactionId)];
        postingIds := postingIds + [nextId];
        nextId := nextId + 1;
        i := i + 1;
      }
    }

    /** insert_transaction_bundle: the header, then the legs in order. */
    method InsertTransactionBundle(b: Bundle) returns (ok: bool, transactionId: nat, postingIds: seq<nat>)
      modifies this
      ensures ok <==> InsertBundle(old(State()), b).Inserted?
      ensures ok ==> InsertBundle(old(State()), b) == InsertResult.Inserted(State(), transactionId, postingIds)
      ensures !ok ==> InsertBundle(old(State()), b) == Violated(State())
    {
      if FindRow(ledger, b.sourceSystem, b.externalId).Some? || b.entityId !in entities {
        return false, 0, [];
      }
      hide Sort, PostingRows, FindRow, Ids;
      var legs := Sort(PostingLe, b.postings);
      transactionId := nextId;
      ledger := ledger + [HeaderRow(b, transactionId)];
      nextId := nextId + 1;
      SamePrefix(old(State()), State(), legs);
      postingIds := InsertPostings(legs, transactionId);
      ok := |postingIds| == |legs|;
    }

    method SaveTransactionResponse(transactionId: nat, response: Response)
      modifies this`ledger
      ensures ledger == SaveResponse(old(ledger), transactionId, response)
    {
      ledger := SaveResponse(ledger, transactionId, response);
    }

    method PersistProposalResult(id: nat, status: ProposalStatus, response: Response, reason: Option<string>,
                                 approved: Option<nat>)
      modifies this`proposals
      ensures proposals == Persist(old(proposals), id, status, response, reason, approved)
    {
      proposals := Persist(proposals, id, status, response, reason, approved);
    }

    /** Answer with the stored response, storing a first one when there is none. */
    method Answer(p: Proposal, duplicates: Option<set<nat>>) returns (out: Outcome)
      modifies this`proposals
      ensures (State(), out) == AnswerWithProposal(old(State()), p, duplicates)
    {
      var response := ProposalResponse(p, duplicates);
      if p.response.None? {
        PersistProposalResult(p.proposalId, Pending, response, None, None);
      }
      out := Ok(response);
    }

    /** The transaction that follows a rolled-back one. */
    method RecoverFromConflict(b: Bundle) returns (out: Outcome)
      modifies this
      ensures (State(), out) == Recover(old(State()), b)
    {
      var replay := Replay(ledger, b.sourceSystem, b.externalId);
      if replay.Some? {
        return Ok(replay.value);
      }
      var p := FindProposal(proposals, b.sourceSystem, b.externalId);
      if p.None? {
        return Err(IntegrityFailure);
      }
      var duplicates := FindDuplicateRiskMatches(b.date, b.postings);
      out := Answer(p.value, if duplicates == {} then None else Some(duplicates));
    }

    /** record_transaction_bundle */
    method RecordTransactionBundle(b: Bundle) returns (out: Outcome)
      modifies this
      ensures (State(), out) == Record(old(State()), b)
    {
      hide InsertBundle, DuplicateMatches, EvaluatePolicy, Recover, AnswerWithProposal, SaveResponse, Impact, Replay;
      if !AllUsd(b.postings) {
        return Err(OnlyUsd);
      }
      if !IsBalanced(b.postings) {
        return Err(Unbalanced);
      }
      var impact := Impact(b.postings);
      var saved := State();
      var replay := Replay(ledger, b.sourceSystem, b.externalId);
      if replay.Some? {
        return Ok(replay.value);
      }
      var force := PeriodGate(State(), b);
      if force.Err? {
        return Err(force.error);
      }
      var policy := EvaluateTransactionPolicy(b, impact, force.value);
      var duplicates := FindDuplicateRiskMatches(b.date, b.postings);
      if policy.approvalRequired || duplicates != {} {
        var context := if duplicates == {} then None else Some(duplicates);
        var existing := FindProposal(proposals, b.sourceSystem, b.externalId);
        if existing.Some? {
          out := Answer(existing.value, context);
          return;
        }
        if b.entityId in entities {
          var p := NewProposal(State(), b, policy);
          proposals, nextId := proposals + [p], nextId + 1;
          out := Answer(p, context);
          return;
        }
      } else {
        var ok, id, postingIds := InsertTransactionBundle(b);
        if ok {
          var response := Respond(Committed, CommittedBody(None, id, postingIds, None, None, b.correlationId));
          SaveTransactionResponse(id, response);
          return Ok(response);
        }
      }
      Rollback(saved);
      out := RecoverFromConflict(b);
    }

    /** approve_proposed_transaction */
    method ApproveProposedTransaction(a: DecisionIn) returns (out: Outcome)
      modifies this
      ensures (State(), out) == ApproveProposal(old(State()), a)
    {
      hide InsertBundle, ApprovalCount, Persist, SaveResponse, Replay, HasDecision;
      var found := FindProposalById(proposals, a.proposalId);
      if found.None? {
        return Err(ProposalNotFound);
      }
      var p, saved := found.value, State();
      var answer := ApproveRead(p, a);
      if answer.Some? {
        return answer.value;
      }
      if Truthy(a.approverId) && HasDecision(decisions, a.proposalId, Approve, a.approverId.value) {
        var already := ApprovalCount(decisions, p.proposalId, Required(p));
        return Ok(PendingResponse(p, already));
      }
      if a.approverId.Some? && HasDecision(decisions, a.proposalId, Approve, a.approverId.value) {
        return Err(IntegrityFailure);
      }
      decisions := decisions + [Decision(a.proposalId, Approve, a.approverId, a.reason)];
      var received := ApprovalCount(decisions, p.proposalId, Required(p));
      if received < Required(p) {
        var response := PendingResponse(p, received);
        PersistProposalResult(p.proposalId, Pending, response, a.reason, None);
        return Ok(response);
      }
      var response: Response;
      var ok, id, postingIds := InsertTransactionBundle(p.request);
      if ok {
        response := Respond(Committed, CommittedBody(Some(p.proposalId), id, postingIds, Some(Required(p)),
                                                     Some(received), p.correlationId));
        SaveTransactionResponse(id, response);
      } else {
        var replay := Replay(ledger, p.request.sourceSystem, p.request.externalId);
        if replay.None? || !replay.value.body.CommittedBody? {
          Rollback(saved);
          return Err(if replay.None? then IntegrityFailure else MissingResponse);
        }
        var body := CommittedBody(Some(p.proposalId), replay.value.body.transactionId, replay.value.body.postingIds,
                                  Some(Required(p)), Some(received), p.correlationId);
        response := Response(Committed, body, replay.value.outputHash);
      }
      PersistProposalResult(p.proposalId, Approved, response, a.reason, Some(response.body.transactionId));
      out := Ok(response);
    }

    /** reject_proposed_transaction */
    method RejectProposedTransaction(a: DecisionIn) returns (out: Outcome)
      modifies this
      ensures (State(), out) == RejectProposal(old(State()), a)
    {
      var found := FindProposalById(proposals, a.proposalId);
      if found.None? {
        return Err(ProposalNotFound);
      }
      var p, saved := found.value, State();
      var answer := RejectRead(p);
      if answer.Some? {
        return answer.value;
      }
      var response := Respond(Rejected, RejectedBody(p.proposalId, a.reason, p.correlationId));
      PersistProposalResult(p.proposalId, Refused, response, a.reason, None);
      if a.approverId.Some? && HasDecision(decisions, p.proposalId, Reject, a.approverId.value) {
        Rollback(saved);
        return Err(IntegrityFailure);
      }
      decisions := decisions + [Decision(p.proposalId, Reject, a.approverId, a.reason)];
      out := Ok(response);
    }

    /** _upsert_period_status, as close_period calls it. */
    method ClosePeriod(key: PeriodKey, entityId: string) returns (result: PeriodResult)
      modifies this`periods
      ensures State() == UpsertPeriod(old(State()), key, entityId, Closed)
      ensures result == if (key, entityId) !in old(periods) || old(periods)[(key, entityId)] == Open then NowClosed
                        else if old(periods)[(key, entityId)] == Closed then AlreadyClosed
                        else AlreadyLocked
    {
      if (key, entityId) in periods {
        if periods[(key, entityId)] == Locked {
          return AlreadyLocked;
        }
        if periods[(key, entityId)] == Closed {
          return AlreadyClosed;
        }
      }
      periods := periods[(key, entityId) := Closed];
      result := NowClosed;
    }

    /** _upsert_period_status, as lock_period calls it. */
    method LockPeriod(key: PeriodKey, entityId: string) returns (result: PeriodResult)
      modifies this`periods
      ensures State() == UpsertPeriod(old(State()), key, entityId, Locked)
      ensures result ==
                if (key, entityId) in old(periods) && old(periods)[(key, entityId)] == Locked then AlreadyLocked
                else NowLocked
    {
      if (key, entityId) in periods && periods[(key, entityId)] == Locked {
        return AlreadyLocked;
      }
      periods := periods[(key, entityId) := Locked];
      result := NowLocked;
    }
  }
}
