/** What interleaving does to whole schedules: what holds in every state of one, which events undo a decision, and
  schedules that undo one. */
module Races {
  import opened Wrappers
  import opened Ordering
  import opened LedgerTables
  import opened LedgerTools
  import opened LedgerInvariants
  import opened ProposalLifecycle
  import opened Interleaving
  import opened Samples

  // ------------------------------------------------------------------ every state of every schedule

  /** From a migrated database, every state of every schedule has unique ids and keys, complete rows under them, no
    orphaned posting and a balance of zero on every day. */
  lemma LedgerSoundThroughout(states: seq<Config>, events: seq<Event>, i: nat)
    requires Schedule(states, events) && Fresh(states[0].db) && states[0].threads == map[] && i < |states|
    ensures ConfigInv(states[i]) && LedgerInv(states[i].db) && ProposalKeysUnique(states[i].db.proposals)
  {
    hide LedgerInv, Relies, Tracked, Next;
    InitialConfig(states[0].db);
    assert states[0] == Config(states[0].db, map[]);
    ScheduleKeeps(states, events, i);
  }

  /** The call `e` advances ends by failing, or turns to recovery. */
  predicate Loses(e: Event, after: Config) {
    && e.Advance? && e.thread in after.threads
    && var pc := after.threads[e.thread];
       pc.RecoverReading? || (pc.Finished? && pc.outcome.Err?)
  }

  /** In every schedule, the event by which a call loses changes nothing in the database. */
  lemma LosersLeaveNoTraceThroughout(states: seq<Config>, events: seq<Event>, i: nat)
    requires Schedule(states, events) && Fresh(states[0].db) && states[0].threads == map[] && i < |events|
    requires Loses(events[i], states[i + 1])
    ensures states[i + 1].db == states[i].db
  {
    hide LedgerInv, Relies, SharedInv, ThreadStep;
    LedgerSoundThroughout(states, events, i);
    assert Next(states[i], events[i], states[i + 1]);
    var t := events[i].thread;
    LosersLeaveNoTrace(states[i].db, states[i].threads[t], states[i + 1].db, states[i + 1].threads[t]);
  }

  // ------------------------------------------------------------------ rejected proposals

  predicate StillRejected(db: Db, id: nat) {
    exists p :: p in db.proposals && p.proposalId == id && p.status == Refused
  }

  /** An approval whose write will go through: its decision is accepted or excused, and it either falls short of the
    quorum or finds its bundle insertable or its key already in the ledger. */
  predicate ApprovalLands(db: Db, pc: Pc, id: nat) {
    && pc.ApproveWriting? && pc.p.proposalId == id
    && !(DecisionClash(db, pc.a) && !Truthy(pc.a.approverId))
    && (|| ApprovalCount(WithApproval(db, pc.a).decisions, id, Required(pc.p)) < Required(pc.p)
        || Insertable(db, pc.p.request)
        || FindRow(db.ledger, pc.p.sourceSystem, pc.p.externalId).Some?)
  }

  lemma PersistKeepsRow(db: Db, p: Proposal, updated: Proposal, q: Proposal)
    requires q in db.proposals && updated.response.Some? && p.proposalId != q.proposalId
    ensures q in Persisted(db, p, updated).proposals
  {
    var i :| 0 <= i < |db.proposals| && db.proposals[i] == q;
    assert Persisted(db, p, updated).proposals[i] == q;
  }

  /** Writing a decision on a rejected proposal, or another, decides whether it is still rejected. */
  lemma PersistDecides(base: Db, p: Proposal, current: Proposal, updated: Proposal, q: Proposal)
    requires ProposalKeysUnique(base.proposals) && current in base.proposals && q in base.proposals
    requires q.status == Refused
    requires SameRequest(p, current) && SameRequest(p, updated) && updated.response.Some? && updated.status != Refused
    ensures !StillRejected(Persisted(base, p, updated), q.proposalId) <==> p.proposalId == q.proposalId
  {
    hide Persisted;
    if p.proposalId == q.proposalId {
      PersistCurrent(base, p, current, updated);
    } else {
      PersistKeepsRow(base, p, updated, q);
    }
  }

  lemma ApprovalRevives(db: Db, a: DecisionIn, p: Proposal, q: Proposal)
    requires SharedInv(db) && Known(db, p) && p.proposalId == a.proposalId && q in db.proposals && q.status == Refused
    ensures !StillRejected(WriteApproval(db, a, p).0, q.proposalId) <==>
              ApprovalLands(db, ApproveWriting(a, p), q.proposalId)
  {
    hide SharedInv, ApprovalCount, InsertBundle, Replay, Appended, Persisted, Insertable, WriteCommit, Known;
    hide StillRejected, FindRow;
    var current := CurrentVersion(db, p);
    StagedShared(db, a, current);
    SharedParts(db, a);
    SharedKeys(db);
    StagedInsertable(db, a, p.request);
    var staged := WithApproval(db, a);
    var received := ApprovalCount(staged.decisions, p.proposalId, Required(p));
    WriteCommitShape(staged, a, p, received);
    ReplayReports(staged, p.sourceSystem, p.externalId);
    RejectedSelf(db, q);
    if !(DecisionClash(db, a) && !Truthy(a.approverId)) {
      if received < Required(p) {
        var updated :=
            p.(status := Pending, response := Some(PendingResponse(p, received)), reason := a.reason,
               approvedTransaction := None);
        PersistDecides(staged, p, current, updated, q);
        ShortShape(db, a, p, updated);
      } else if Insertable(staged, p.request) {
        var response := ApprovalResponse(staged, p, received);
        AppendedProposals(staged, p.request, response);
        PersistDecides(Appended(staged, p.request, response), p, current, ApprovedWith(p, response, a.reason), q);
      } else if Replay(staged.ledger, p.sourceSystem, p.externalId).Some? {
        var response := AdoptionResponse(p, Replay(staged.ledger, p.sourceSystem, p.externalId).value, received);
        PersistDecides(staged, p, current, ApprovedWith(p, response, a.reason), q);
      }
    }
  }

  lemma ShortShape(db: Db, a: DecisionIn, p: Proposal, updated: Proposal)
    requires !(DecisionClash(db, a) && !Truthy(a.approverId))
    requires ApprovalCount(WithApproval(db, a).decisions, p.proposalId, Required(p)) < Required(p)
    requires updated == p.(status := Pending, reason := a.reason, approvedTransaction := None,
                           response := Some(PendingResponse(p, ApprovalCount(WithApproval(db, a).decisions,
                                                                             p.proposalId, Required(p)))))
    ensures WriteApproval(db, a, p).0 == Persisted(WithApproval(db, a), p, updated)
  {
    hide ApprovalCount, DecisionClash, WriteCommit;
  }

  lemma StagedInsertable(db: Db, a: DecisionIn, b: Bundle)
    ensures Insertable(WithApproval(db, a), b) <==> Insertable(db, b)
  {
    hide FindRow;
  }

  lemma RejectedSelf(db: Db, q: Proposal)
    requires q in db.proposals && q.status == Refused
    ensures StillRejected(db, q.proposalId)
  {
  }

  lemma RejectionKeepsRejected(db: Db, a: DecisionIn, p: Proposal, q: Proposal)
    requires SharedInv(db) && Known(db, p) && q in db.proposals && q.status == Refused
    ensures StillRejected(WriteRejection(db, a, p).0, q.proposalId)
  {
    hide SharedInv, HasDecision, Persist;
    var current := CurrentVersion(db, p);
    var (next, outcome) := WriteRejection(db, a, p);
    if outcome.Ok? {
      var updated :=
          p.(status := Refused, response := Some(outcome.value), reason := a.reason, approvedTransaction := None);
      if p.proposalId == q.proposalId {
        SharedKeys(db);
        PersistCurrent(db, p, current, updated);
      } else {
        PersistKeepsRow(db, p, updated, q);
      }
    }
  }

  lemma RecordKeepsRejected(db: Db, pc: Pc, selected: Option<PolicyRule>, duplicates: Option<set<nat>>, q: Proposal)
    requires SharedInv(db) && Relies(db, pc) && !pc.Finished? && !pc.ApproveWriting? && !pc.RejectWriting?
    requires q in db.proposals && q.status == Refused
    ensures StillRejected(Piece(db, pc, selected, duplicates).0, q.proposalId)
  {
    hide SharedInv, ReportsKey, ApprovalCount, AlreadyApproved, Replay, WriteDirect, WriteProposal, AnswerWithProposal;
    hide Insertable, Appended;
    SharedIds(db);
    if pc.RecordLooking? || pc.RecoverLooking? {
      var found := FindProposal(db.proposals, pc.b.sourceSystem, pc.b.externalId);
      if found.Some? {
        AnswerShared(db, found.value, if pc.RecordLooking? then pc.duplicates else duplicates);
      }
    } else if pc.RecordProposing? && WriteProposal(db, pc.b, pc.policy, pc.duplicates).Some? {
      WriteProposalShape(db, pc.b, pc.policy, pc.duplicates);
    } else if pc.RecordCommitting? {
      WriteDirectShape(db, pc.b);
      AppendedProposals(db, pc.b, DirectResponse(db, pc.b));
    }
  }

  /** Among all interleaved steps, only an approval written from a stale read takes a proposal out of rejected. */
  lemma OnlyStaleApprovalRevives(db: Db, pc: Pc, next: Db, pc': Pc, q: Proposal)
    requires SharedInv(db) && Relies(db, pc) && ThreadStep(db, pc, next, pc')
    requires q in db.proposals && q.status == Refused
    ensures !StillRejected(next, q.proposalId) <==> ApprovalLands(db, pc, q.proposalId)
  {
    hide SharedInv, WriteApproval, WriteRejection, Known, ReportsKey, ApprovalCount, AlreadyApproved, Replay;
    hide WriteDirect, WriteProposal;
    hide AnswerWithProposal, Insertable, Appended, StillRejected, FindRow;
    var selected, duplicates :| (next, pc') == Piece(db, pc, selected, duplicates);
    if pc.ApproveWriting? {
      ApprovalRevives(db, pc.a, pc.p, q);
    } else if pc.RejectWriting? {
      RejectionKeepsRejected(db, pc.a, pc.p, q);
    } else {
      RecordKeepsRejected(db, pc, selected, duplicates, q);
    }
  }

  // ------------------------------------------------------------------ decisions over schedules

  /** The event writes a rejection of this proposal that goes through. */
  predicate RejectsNow(c: Config, e: Event, id: nat) {
    e.Advance? && e.thread in c.threads && RejectionLands(c.db, c.threads[e.thread], id)
  }

  /** The event writes an approval of this proposal that goes through. */
  predicate ApprovesNow(c: Config, e: Event, id: nat) {
    e.Advance? && e.thread in c.threads && ApprovalLands(c.db, c.threads[e.thread], id)
  }

  /** In every schedule, an event takes a proposal out of committed exactly when it writes a rejection of it, and out of
    rejected exactly when it writes an approval of it. */
  lemma DecisionsUndoneThroughout(states: seq<Config>, events: seq<Event>, i: nat, q: Proposal)
    requires Schedule(states, events) && Fresh(states[0].db) && states[0].threads == map[] && i < |events|
    requires q in states[i].db.proposals
    ensures q.status == Approved ==>
              (!StillCommitted(states[i + 1].db, q.proposalId) <==> RejectsNow(states[i], events[i], q.proposalId))
    ensures q.status == Refused ==>
              (!StillRejected(states[i + 1].db, q.proposalId) <==> ApprovesNow(states[i], events[i], q.proposalId))
  {
    hide LedgerInv, Relies, SharedInv, ThreadStep, RejectionLands, ApprovalLands, StillCommitted, StillRejected, Step;
    LedgerSoundThroughout(states, events, i);
    var c, e, c' := states[i], events[i], states[i + 1];
    assert Next(c, e, c');
    match e {
      case Advance(t) =>
        if q.status == Approved {
          OnlyStaleRejectionDemotes(c.db, c.threads[t], c'.db, c'.threads[t], q);
        } else if q.status == Refused {
          OnlyStaleApprovalRevives(c.db, c.threads[t], c'.db, c'.threads[t], q);
        }
      case _ => QuietKeeps(c, e, c', q);
    }
  }

  lemma QuietKeeps(c: Config, e: Event, c': Config, q: Proposal)
    requires Next(c, e, c') && !e.Advance? && q in c.db.proposals
    ensures q.status == Approved ==> StillCommitted(c'.db, q.proposalId)
    ensures q.status == Refused ==> StillRejected(c'.db, q.proposalId)
  {
    assert c'.db.proposals == c.db.proposals;
  }

  /** A committed proposal stays committed until an event writes a rejection of it. */
  lemma {:induction false} CommittedUntilRejected(states: seq<Config>, events: seq<Event>, i: nat, j: nat, id: nat)
    requires Schedule(states, events) && Fresh(states[0].db) && states[0].threads == map[] && i <= j < |states|
    requires StillCommitted(states[i].db, id) && forall k :: i <= k < j ==> !RejectsNow(states[k], events[k], id)
    ensures StillCommitted(states[j].db, id)
    decreases j
  {
    hide Schedule, RejectsNow, Next;
    if i < j {
      CommittedUntilRejected(states, events, i, j - 1, id);
      var q :| q in states[j - 1].db.proposals && q.proposalId == id && q.status == Approved;
      ScheduleSize(states, events);
      DecisionsUndoneThroughout(states, events, j - 1, q);
      assert !RejectsNow(states[j - 1], events[j - 1], id);
    }
  }

  lemma ScheduleSize(states: seq<Config>, events: seq<Event>)
    requires Schedule(states, events)
    ensures |states| == |events| + 1
  {
  }

  // ------------------------------------------------------------------ building schedules

  function Last<T>(s: seq<T>): T
    requires s != []
  {
    s[|s| - 1]
  }

  lemma Nobody(db: Db) returns (states: seq<Config>, events: seq<Event>)
    ensures Schedule(states, events) && states == [Config(db, map[])]
  {
    states, events := [Config(db, map[])], [];
  }

  lemma Extended(states: seq<Config>, events: seq<Event>, e: Event, c: Config)
    requires Schedule(states, events) && Next(Last(states), e, c)
    ensures Schedule(states + [c], events + [e])
  {
    hide Next;
    var more, added := states + [c], events + [e];
    forall i | 0 <= i < |added| ensures Next(more[i], added[i], more[i + 1]) {
      if i < |events| {
        assert Next(states[i], events[i], states[i + 1]);
      }
    }
  }

  lemma Arrived(states: seq<Config>, events: seq<Event>, t: nat, pc: Pc)
      returns (states': seq<Config>, events': seq<Event>)
    requires Schedule(states, events) && t !in Last(states).threads && Starting(pc)
    ensures Schedule(states', events') && events' == events + [Arrive(t, pc)]
    ensures var c := Last(states); states' == states + [c.(threads := c.threads[t := pc])]
  {
    var c := Last(states);
    Extended(states, events, Arrive(t, pc), c.(threads := c.threads[t := pc]));
    states', events' := states + [c.(threads := c.threads[t := pc])], events + [Arrive(t, pc)];
  }

  lemma Advanced(states: seq<Config>, events: seq<Event>, t: nat, selected: Option<PolicyRule>)
      returns (states': seq<Config>, events': seq<Event>)
    requires Schedule(states, events) && t in Last(states).threads && !Last(states).threads[t].Finished?
    requires var pc := Last(states).threads[t]; pc.RecordPolicy? ==> Selectable(Last(states).db, pc.b, selected)
    ensures Schedule(states', events') && events' == events + [Advance(t)]
    ensures var c := Last(states);
            var (next, pc) := Piece(c.db, c.threads[t], selected, None);
            states' == states + [Config(next, c.threads[t := pc])]
  {
    hide Piece;
    var c := Last(states);
    var (next, pc) := Piece(c.db, c.threads[t], selected, None);
    Extended(states, events, Advance(t), Config(next, c.threads[t := pc]));
    states', events' := states + [Config(next, c.threads[t := pc])], events + [Advance(t)];
  }

  lemma Changed(states: seq<Config>, events: seq<Event>, call: Call) returns (states': seq<Config>, events': seq<Event>)
    requires Schedule(states, events) && Background(call)
    ensures Schedule(states', events') && events' == events + [Change(call)]
    ensures var c := Last(states); states' == states + [c.(db := Step(c.db, call))]
  {
    hide Step;
    var c := Last(states);
    Extended(states, events, Change(call), c.(db := Step(c.db, call)));
    states', events' := states + [c.(db := Step(c.db, call))], events + [Change(call)];
  }

  /** One more step of the call that arrived last, over the threads there were before. */
  lemma Onward(states: seq<Config>, events: seq<Event>, db: Db, threads: map<nat, Pc>, t: nat, pc: Pc,
               selected: Option<PolicyRule>) returns (states': seq<Config>, events': seq<Event>)
    requires Schedule(states, events) && Last(states) == Config(db, threads[t := pc]) && !pc.Finished?
    requires pc.RecordPolicy? ==> Selectable(db, pc.b, selected)
    ensures Schedule(states', events') && states <= states' && events <= events' && |states'| == |states| + 1
    ensures var (next, pc') := Piece(db, pc, selected, None); Last(states') == Config(next, threads[t := pc'])
  {
    hide Schedule, Piece, Selectable;
    states', events' := Advanced(states, events, t, selected);
    var pc' := Piece(db, pc, selected, None).1;
    assert threads[t := pc][t := pc'] == threads[t := pc'];
  }

  /** A call to record a bundle arrives and reads the ledger and the gate, with nobody else running. */
  lemma ReadsTheGate(states: seq<Config>, events: seq<Event>, t: nat, b: Bundle)
      returns (states': seq<Config>, events': seq<Event>)
    requires Schedule(states, events) && t !in Last(states).threads
    requires AllUsd(b.postings) && IsBalanced(b.postings) && Last(states).db.ledger == []
    requires !GateOf(Last(states).db, b).Refuse?
    ensures Schedule(states', events') && states <= states' && events <= events' && |states'| == |states| + 5
    ensures var gate := GateOf(Last(states).db, b);
            var pc := if gate.Propose? then RecordLooking(b, gate.policy, gate.duplicates) else RecordCommitting(b);
            Last(states') == Config(Last(states).db, Last(states).threads[t := pc])
  {
    hide PeriodGate, PolicyFrom, DuplicateMatches, Impact, IsBalanced, AllUsd, Sort, FirstMatch, Selectable, Schedule;
    ScheduleSize(states, events);
    var db, threads := Last(states).db, Last(states).threads;
    var force := PeriodGate(db, b).value;
    var selected := FirstMatch(db, Sort(RuleLe, ActiveRules(db.rules)), b);
    var policy := PolicyFrom(db.fallbackThreshold, Impact(b.postings), force, selected);
    QuietRuleSelectable(db, b);
    states', events' := Arrived(states, events, t, RecordReading(b));
    states', events' := Onward(states', events', db, threads, t, RecordReading(b), None);
    states', events' := Onward(states', events', db, threads, t, RecordPeriod(b), None);
    states', events' := Onward(states', events', db, threads, t, RecordPolicy(b, force), selected);
    states', events' := Onward(states', events', db, threads, t, RecordDuplicates(b, policy), None);
  }

  // ------------------------------------------------------------------ a rejection that comes too late

  const PROPOSED := WithProposal(START, TRANSFER, POLICY, None)

  const DECISION := DecisionIn(1, None, None)

  /** The transfer is recorded and proposed. */
  lemma ProposedSchedule() returns (states: seq<Config>, events: seq<Event>)
    ensures Schedule(states, events) && states[0] == Config(START, map[]) && |states| == 8
    ensures Last(states).db == PROPOSED && Last(states).threads.Keys == {0}
  {
    SampleProposes();
    FreshInv(START);
    InvParts(START);
    hide GateOf, LedgerInv, PostingRows, Sort, Inv, WithProposal, WriteProposal, Schedule, Insertable, AllUsd;
    hide IsBalanced, IdsBelow;
    states, events := Nobody(START);
    states, events := ReadsTheGate(states, events, 0, TRANSFER);
    states, events := Advanced(states, events, 0, None);
    assert Last(states) == Config(START, map[0 := RecordProposing(TRANSFER, POLICY, None)]);
    states, events := Advanced(states, events, 0, None);
    WriteProposalGoes();
    WriteProposalShape(START, TRANSFER, POLICY, None);
  }

  lemma WriteProposalGoes()
    ensures WriteProposal(START, TRANSFER, POLICY, None).Some?
  {
  }

  /** An approval and a rejection arrive and both read the proposal while it is pending. */
  lemma BothRead(before: seq<Config>, earlier: seq<Event>) returns (states: seq<Config>, events: seq<Event>)
    requires Schedule(before, earlier) && |before| == 8 && Last(before).db == PROPOSED
    requires Last(before).threads.Keys == {0}
    ensures Schedule(states, events) && |states| == 13 && before <= states
    ensures Last(states).db == PROPOSED && Last(states).threads.Keys == {0, 1, 2}
    ensures Last(states).threads[1] == ApproveWriting(DECISION, PROPOSED.proposals[0])
    ensures Last(states).threads[2] == RejectWriting(DECISION, PROPOSED.proposals[0])
  {
    hide Schedule, Piece;
    states, events := Arrived(before, earlier, 1, ApproveReading(DECISION));
    states, events := Arrived(states, events, 2, RejectReading(DECISION));
    PendingRead();
    states, events := Advanced(states, events, 1, None);
    states, events := Advanced(states, events, 2, None);
    states, events := Advanced(states, events, 1, None);
  }

  lemma PendingRead()
    ensures |PROPOSED.proposals| == 1 && PROPOSED.proposals[0].proposalId == 1
    ensures var p := PROPOSED.proposals[0];
            && Piece(PROPOSED, ApproveReading(DECISION), None, None) == (PROPOSED, ApproveChecking(DECISION, p))
            && Piece(PROPOSED, ApproveChecking(DECISION, p), None, None) == (PROPOSED, ApproveWriting(DECISION, p))
            && Piece(PROPOSED, RejectReading(DECISION), None, None) == (PROPOSED, RejectWriting(DECISION, p))
  {
    hide GateOf;
    assert PROPOSED.proposals[0].proposalId == 1;
    assert FindProposalById(PROPOSED.proposals, 1) == Some(PROPOSED.proposals[0]);
  }

  /** The transfer is proposed; an approval and a rejection both read it pending; the approval commits it and the
    rejection is written last.  Its event takes the proposal from committed to rejected, and the row stays in the
    ledger. */
  lemma StaleRejectionSchedule() returns (states: seq<Config>, events: seq<Event>)
    ensures Schedule(states, events) && states[0] == Config(START, map[]) && Fresh(START)
    ensures |states| == 15 && |events| == 14 && events[13] == Advance(2)
    ensures |states[13].db.proposals| == |states[14].db.proposals| == 1
    ensures states[13].db.proposals[0].status == Approved && states[14].db.proposals[0].status == Refused
    ensures FindRow(states[14].db.ledger, "bank", "42").Some?
  {
    hide Schedule, WithProposal, WriteApproval, WriteRejection, GateOf, Insertable, DecisionsOn;
    SampleProposes();
    PendingRead();
    states, events := ProposedSchedule();
    states, events := BothRead(states, events);
    states, events := Advanced(states, events, 1, None);
    OnlyARejection();
    CommitsAtOnce(PROPOSED, PROPOSED.proposals[0]);
    var committed := Last(states).db;
    states, events := Advanced(states, events, 2, None);
    RejectsAnyway(committed, PROPOSED.proposals[0]);
    ScheduleSize(states, events);
  }

  lemma RejectsAnyway(db: Db, p: Proposal)
    requires |db.proposals| == 1 && db.proposals[0].proposalId == p.proposalId
    ensures var next := WriteRejection(db, DECISION, p).0;
            && |next.proposals| == 1 && next.proposals[0].status == Refused
                && next.proposals[0].proposalId == p.proposalId
            && next == db.(proposals := next.proposals,
                           decisions := db.decisions + [Decision(p.proposalId, Reject, None, None)])
  {
  }

  /** The sample proposal with whatever was decided on it since it was proposed, and no approval yet. */
  predicate Undecided(db: Db) {
    && |db.proposals| == 1 && db.proposals[0].proposalId == 1
    && db == PROPOSED.(proposals := db.proposals, decisions := db.decisions)
    && DecisionsOn(db.decisions, 1, Approve) == [] && forall d :: d in db.decisions ==> d.proposalId == 1
  }

  lemma OneApproval(db: Db)
    requires Undecided(db)
    ensures var staged := db.(decisions := db.decisions + [Decision(1, Approve, None, None)]);
            WithApproval(db, DECISION) == staged && ApprovalCount(staged.decisions, 1, 1) == 1
  {
    DecisionsAppend(db.decisions, Decision(1, Approve, None, None), 1, Approve);
  }

  lemma ReadyToInsert(db: Db)
    requires Undecided(db)
    ensures var staged, p := WithApproval(db, DECISION), PROPOSED.proposals[0];
            && |PROPOSED.proposals| == 1 && p.proposalId == 1 && Required(p) == 1
            && HasKey(HeaderRow(p.request, 0), "bank", "42")
            && Insertable(staged, p.request) && IdsBelow(staged) && RowsComplete(staged) && staged.ledger == []
  {
    hide GateOf, DecisionsOn, ApprovalCount;
    OneApproval(db);
  }

  /** One unnamed approval is the whole quorum, whatever was decided since the proposal was read. */
  lemma CommitsAtOnce(db: Db, p: Proposal)
    requires p == PROPOSED.proposals[0] && Undecided(db)
    ensures var next := WriteApproval(db, DECISION, p).0;
            && |next.proposals| == 1 && next.proposals[0].proposalId == 1 && next.proposals[0].status == Approved
            && FindRow(next.ledger, "bank", "42").Some?
  {
    hide GateOf, PostingRows, Sort, ApprovalCount, DecisionsOn, Insertable, IdsBelow, RowsComplete, InsertBundle;
    hide WithProposal, WriteCommit, Replay;
    OneApproval(db);
    ReadyToInsert(db);
    var staged := WithApproval(db, DECISION);
    WriteCommitShape(staged, DECISION, p, 1);
    FindAppended([], CommittedRow(p.request, staged.nextId, ApprovalResponse(staged, p, 1)), "bank", "42");
  }

  /** The same reads, with the rejection written first and the approval last.  Its event takes the proposal from
    rejected to committed, with its row in the ledger. */
  lemma StaleApprovalSchedule() returns (states: seq<Config>, events: seq<Event>)
    ensures Schedule(states, events) && states[0] == Config(START, map[]) && Fresh(START)
    ensures |states| == 15 && |events| == 14 && events[13] == Advance(1)
    ensures |states[13].db.proposals| == |states[14].db.proposals| == 1
    ensures states[13].db.proposals[0].status == Refused && states[14].db.proposals[0].status == Approved
    ensures states[13].db.ledger == [] && FindRow(states[14].db.ledger, "bank", "42").Some?
  {
    hide Schedule, WithProposal, WriteApproval, WriteRejection, GateOf, Insertable, DecisionsOn;
    SampleProposes();
    PendingRead();
    states, events := ProposedSchedule();
    states, events := BothRead(states, events);
    states, events := Advanced(states, events, 2, None);
    RejectsAnyway(PROPOSED, PROPOSED.proposals[0]);
    var rejected := Last(states).db;
    OnlyARejection();
    states, events := Advanced(states, events, 1, None);
    CommitsAtOnce(rejected, PROPOSED.proposals[0]);
    ScheduleSize(states, events);
  }

  lemma OnlyARejection()
    ensures PROPOSED.decisions == [] && PROPOSED.ledger == []
    ensures PROPOSED.decisions + [Decision(1, Reject, None, None)] == [Decision(1, Reject, None, None)]
    ensures DecisionsOn([], 1, Approve) == [] && DecisionsOn([Decision(1, Reject, None, None)], 1, Approve) == []
  {
  }
}
