/** What a direct write still owes to the gate when calls interleave.  The gate reads the period, the rules and the
  duplicates one after another, and nothing is read again before the write: so a direct row may land in a period that
  was shut, or beside a row that was committed, after the read in question, and only then. */
module Verdicts {
  import opened Wrappers
  import opened Ordering
  import opened LedgerTables
  import opened LedgerTools
  import opened LedgerInvariants
  import opened ProposalLifecycle
  import opened ApprovalGate
  import opened LedgerRuns
  import opened Interleaving
  import opened Races
  import opened Samples

  // ------------------------------------------------------------------ how a call got where it stands

  predicate Moves(e: Event, t: nat) {
    !e.Change? && e.thread == t
  }

  /** In all these states the call stands at the same piece. */
  predicate StandsAt(states: seq<Config>, t: nat, pc: Pc, from: nat, to: nat) {
    to < |states| && forall m :: from <= m <= to ==> t in states[m].threads && states[m].threads[t] == pc
  }

  lemma NextAt(states: seq<Config>, events: seq<Event>, i: nat)
    requires Schedule(states, events) && i < |events|
    ensures Next(states[i], events[i], states[i + 1])
  {
    hide Next;
  }

  lemma NotMoved(c: Config, e: Event, c': Config, t: nat)
    requires Next(c, e, c') && !Moves(e, t) && t in c'.threads
    ensures t in c.threads && c.threads[t] == c'.threads[t]
  {
    hide ThreadStep, Step;
  }

  /** The event by which a call reached the piece it stands at. */
  lemma {:induction false} LastMove(states: seq<Config>, events: seq<Event>, i: nat, t: nat) returns (k: nat)
    requires Schedule(states, events) && states[0].threads == map[] && i < |states| && t in states[i].threads
    ensures k < i && Moves(events[k], t) && StandsAt(states, t, states[i].threads[t], k + 1, i)
    decreases i
  {
    hide Next, Schedule;
    ScheduleSize(states, events);
    k := i - 1;
    if !Moves(events[k], t) {
      NextAt(states, events, k);
      NotMoved(states[k], events[k], states[i], t);
      k := LastMove(states, events, k, t);
    }
  }

  /** A call that reached `pc` stood at `before` and passed the read made there. */
  ghost predicate PassedRead(db: Db, before: Pc, pc: Pc) {
    if pc.RecordPeriod? then before == RecordReading(pc.b)
    else if pc.RecordPolicy? then before == RecordPeriod(pc.b) && PeriodGate(db, pc.b) == Ok(pc.force)
    else if pc.RecordDuplicates? then
      && before.RecordPolicy? && before.b == pc.b
      && exists selected :: Selectable(db, pc.b, selected)
           && pc.policy == PolicyFrom(db.fallbackThreshold, Impact(pc.b.postings), before.force, selected)
    else
      && pc.RecordCommitting? && before.RecordDuplicates? && before.b == pc.b
      && !before.policy.approvalRequired && DuplicateMatches(db, pc.b.date, pc.b.postings) == {}
  }

  predicate InGate(pc: Pc) {
    pc.RecordPeriod? || pc.RecordPolicy? || pc.RecordDuplicates? || pc.RecordCommitting?
  }

  /** No piece leads back to where calls start, and each stage of the gate is reached by passing the read before it. */
  lemma ReachedFrom(c: Config, e: Event, c': Config, t: nat)
    requires Next(c, e, c') && Moves(e, t) && t in c'.threads
    ensures c'.threads[t].RecordReading? ==> e == Arrive(t, c'.threads[t])
    ensures InGate(c'.threads[t]) ==> e == Advance(t) && t in c.threads && PassedRead(c.db, c.threads[t], c'.threads[t])
  {
    hide PeriodGate, Selectable, PolicyFrom, DuplicateMatches, Impact, Replay, AllUsd, IsBalanced, FindProposal;
    hide AnswerWithProposal, WriteProposal, WriteDirect, WriteApproval, WriteRejection, ApproveRead, RejectRead;
    hide AlreadyApproved, ApprovalCount, FindProposalById, Step;
  }

  /** The event by which a call reached its stage of the gate. */
  lemma Reached(states: seq<Config>, events: seq<Event>, i: nat, t: nat) returns (k: nat)
    requires Schedule(states, events) && states[0].threads == map[] && i < |states| && t in states[i].threads
    requires InGate(states[i].threads[t])
    ensures k < i && events[k] == Advance(t) && t in states[k].threads
    ensures PassedRead(states[k].db, states[k].threads[t], states[i].threads[t])
    ensures StandsAt(states, t, states[i].threads[t], k + 1, i)
  {
    hide Schedule, Next, PassedRead;
    ScheduleSize(states, events);
    k := LastMove(states, events, i, t);
    NextAt(states, events, k);
    ReachedFrom(states[k], events[k], states[k + 1], t);
  }

  // ------------------------------------------------------------------ what a direct write has behind it

  /** Under every count of rows, the first rule to match might be one that admits the impact, or none while the fallback
    admits it. */
  ghost predicate PolicyMayAdmit(db: Db, b: Bundle) {
    var impact := Impact(b.postings);
    || (impact <= db.fallbackThreshold && forall r :: !Certain(db, r, b))
    || (exists r :: Certain(db, r, b) && r.velocityCount.None? && impact <= r.threshold
                    && forall s :: Certain(db, s, b) ==> RuleLe(r, s))
  }

  lemma SelectionAdmits(db: Db, b: Bundle, selected: Option<PolicyRule>)
    requires Selectable(db, b, selected)
    requires !PolicyFrom(db.fallbackThreshold, Impact(b.postings), false, selected).approvalRequired
    ensures PolicyMayAdmit(db, b)
  {
    hide CriteriaMatch, RuleLe, Impact;
    if selected.Some? {
      assert Certain(db, selected.value, b);
    }
  }

  /** The events of one call that writes directly: it arrives, then reads the period, the rules and the duplicates. */
  datatype Trail = Trail(arrival: nat, period: nat, rules: nat, duplicates: nat)

  /** Past the period read, with nothing so far that asks for approval. */
  predicate PastPeriod(pc: Pc, b: Bundle) {
    || pc == RecordPolicy(b, false)
    || (pc.RecordDuplicates? && pc.b == b && !pc.policy.approvalRequired)
    || pc == RecordCommitting(b)
  }

  /** Before event j, call t arrived with this bundle and made the reads of the trail, and each let the bundle pass. */
  ghost predicate Admitted(states: seq<Config>, events: seq<Event>, j: nat, t: nat, b: Bundle, trail: Trail) {
    && |states| == |events| + 1 && j < |events|
    && trail.arrival < trail.period < trail.rules < trail.duplicates < j
    && events[trail.arrival] == Arrive(t, RecordReading(b))
    && events[trail.period] == events[trail.rules] == events[trail.duplicates] == Advance(t)
    && PeriodOpen(states[trail.period].db, PeriodOf(b.date), b.entityId)
    && PolicyMayAdmit(states[trail.rules].db, b)
    && (forall r :: !Duplicates(states[trail.duplicates].db, r, b.date, MatchKeys(b.postings)))
    && (forall m :: trail.period < m <= j ==> t in states[m].threads && PastPeriod(states[m].threads[t], b))
    && (forall m :: trail.duplicates < m <= j ==> t in states[m].threads && states[m].threads[t] == RecordCommitting(b))
  }

  lemma DirectWriteAdmitted(states: seq<Config>, events: seq<Event>, j: nat, t: nat) returns (trail: Trail)
    requires Schedule(states, events) && states[0].threads == map[] && j < |events|
    requires t in states[j].threads && states[j].threads[t].RecordCommitting?
    ensures Admitted(states, events, j, t, states[j].threads[t].b, trail)
  {
    hide Schedule, Next, PolicyFrom, DuplicateMatches, Impact, Selectable, PolicyMayAdmit, Duplicates, MatchKeys;
    ScheduleSize(states, events);
    var b := states[j].threads[t].b;
    var d := Reached(states, events, j, t);
    var l := Reached(states, events, d, t);
    var k := Reached(states, events, l, t);
    var g := Reached(states, events, k, t);
    var a := LastMove(states, events, g, t);
    NextAt(states, events, a);
    ReachedFrom(states[a], events[a], states[a + 1], t);
    DuplicatesExactly(states[d].db, b);
    var force, policy := states[l].threads[t].force, states[d].threads[t].policy;
    ForcedApproval(force);
    var selected :| Selectable(states[l].db, b, selected)
                    && policy == PolicyFrom(states[l].db.fallbackThreshold, Impact(b.postings), force, selected);
    SelectionAdmits(states[l].db, b, selected);
    trail := Trail(a, k, l, d);
  }

  lemma ForcedApproval(force: bool)
    ensures force ==>
              forall fallback, impact, selected :: PolicyFrom(fallback, impact, force, selected).approvalRequired
  {
  }

  // ------------------------------------------------------------------ how the ledger and the periods move

  /** The tables of rows stay, or gain one row with its postings. */
  ghost predicate LedgerMoves(db: Db, next: Db) {
    || (next.ledger == db.ledger && next.postings == db.postings)
    || exists b, response :: Gains(db, next, b, response)
  }

  predicate Gains(db: Db, next: Db, b: Bundle, response: Response) {
    && next.ledger == db.ledger + [CommittedRow(b, db.nextId, response)]
    && next.postings == db.postings + PostingRows(Sort(PostingLe, b.postings), db.nextId, db.nextId + 1)
  }

  lemma ApprovalMoves(db: Db, a: DecisionIn, p: Proposal)
    requires SharedInv(db) && Known(db, p) && p.proposalId == a.proposalId
    ensures LedgerMoves(db, WriteApproval(db, a, p).0) && WriteApproval(db, a, p).0.periods == db.periods
  {
    hide SharedInv, ApprovalCount, InsertBundle, Replay, Persist, Insertable, WriteCommit, Known, PostingRows, Sort;
    var current := CurrentVersion(db, p);
    StagedShared(db, a, current);
    SharedParts(db, a);
    var staged := WithApproval(db, a);
    var received := ApprovalCount(staged.decisions, p.proposalId, Required(p));
    WriteCommitShape(staged, a, p, received);
    var next := WriteApproval(db, a, p).0;
    if next.ledger != db.ledger {
      assert Gains(db, next, p.request, ApprovalResponse(staged, p, received));
    }
  }

  lemma RejectionKeepsLedger(db: Db, a: DecisionIn, p: Proposal)
    ensures var next := WriteRejection(db, a, p).0;
            next.ledger == db.ledger && next.postings == db.postings && next.periods == db.periods
  {
  }

  lemma AnswerKeepsLedger(db: Db, pc: Pc, duplicates: Option<set<nat>>)
    requires pc.RecordLooking? || pc.RecoverLooking?
    ensures forall selected ::
              var next := RecordPiece(db, pc, selected, duplicates).0;
              next.ledger == db.ledger && next.postings == db.postings && next.periods == db.periods
  {
    hide Replay, FindProposal, ProposalResponse, Persist;
  }

  lemma PieceMoves(db: Db, pc: Pc, selected: Option<PolicyRule>, duplicates: Option<set<nat>>)
    requires SharedInv(db) && Relies(db, pc) && !pc.Finished?
    ensures var next := Piece(db, pc, selected, duplicates).0; LedgerMoves(db, next) && next.periods == db.periods
  {
    hide SharedInv, WriteApproval, WriteRejection, Known, ReportsKey, AlreadyApproved, Replay, WriteDirect;
    hide WriteProposal;
    hide AnswerWithProposal, Insertable, PostingRows, Sort, PeriodGate, PolicyFrom, DuplicateMatches, Impact;
    SharedIds(db);
    if pc.ApproveWriting? {
      ApprovalMoves(db, pc.a, pc.p);
    } else if pc.RejectWriting? {
      RejectionKeepsLedger(db, pc.a, pc.p);
    } else if pc.RecordLooking? || pc.RecoverLooking? {
      AnswerKeepsLedger(db, pc, duplicates);
    } else if pc.RecordProposing? && WriteProposal(db, pc.b, pc.policy, pc.duplicates).Some? {
      WriteProposalShape(db, pc.b, pc.policy, pc.duplicates);
    } else if pc.RecordCommitting? {
      WriteDirectShape(db, pc.b);
      if Insertable(db, pc.b) {
        assert Gains(db, Appended(db, pc.b, DirectResponse(db, pc.b)), pc.b, DirectResponse(db, pc.b));
      }
    }
  }

  /** The event closes or locks this period. */
  predicate Shuts(e: Event, key: PeriodKey, entityId: string) {
    e == Change(ClosePeriodCall(key, entityId)) || e == Change(LockPeriodCall(key, entityId))
  }

  lemma NextMoves(c: Config, e: Event, c': Config, key: PeriodKey, entityId: string)
    requires ConfigInv(c) && Next(c, e, c')
    ensures LedgerMoves(c.db, c'.db)
    ensures !PeriodOpen(c'.db, key, entityId) <==> !PeriodOpen(c.db, key, entityId) || Shuts(e, key, entityId)
  {
    hide LedgerMoves, SharedInv, Relies, Piece, Record, ApproveProposal, RejectProposal;
    match e {
      case Arrive(_, _) => LedgerStays(c.db, c'.db);
      case Change(_) => LedgerStays(c.db, c'.db);
      case Advance(t) =>
        var pc := c.threads[t];
        var selected, duplicates :| (c'.db, c'.threads[t]) == Piece(c.db, pc, selected, duplicates);
        PieceMoves(c.db, pc, selected, duplicates);
    }
  }

  lemma LedgerStays(db: Db, next: Db)
    requires next.ledger == db.ledger && next.postings == db.postings
    ensures LedgerMoves(db, next)
  {
  }

  /** Some event from `from` on and before `to` closes or locks this period. */
  predicate ShutBetween(events: seq<Event>, from: nat, to: nat, key: PeriodKey, entityId: string) {
    to <= |events| && exists m :: from <= m < to && Shuts(events[m], key, entityId)
  }

  /** A period is shut exactly when it was shut before or an event in between shut it. */
  lemma {:induction false} ShutSince(states: seq<Config>, events: seq<Event>, i: nat, j: nat, key: PeriodKey,
                                     entityId: string)
    requires Schedule(states, events) && Fresh(states[0].db) && states[0].threads == map[] && i <= j < |states|
    ensures !PeriodOpen(states[j].db, key, entityId) <==>
              !PeriodOpen(states[i].db, key, entityId) || ShutBetween(events, i, j, key, entityId)
    decreases j
  {
    hide Schedule, Next, PeriodOpen, Shuts, ConfigInv, LedgerInv;
    ScheduleSize(states, events);
    if i < j {
      ShutSince(states, events, i, j - 1, key, entityId);
      LedgerSoundThroughout(states, events, j - 1);
      NextAt(states, events, j - 1);
      NextMoves(states[j - 1], events[j - 1], states[j], key, entityId);
    }
  }

  /** Some row of the bundle's day that posts all its pairs is in the ledger. */
  ghost predicate Covered(db: Db, b: Bundle) {
    exists r :: Duplicates(db, r, b.date, MatchKeys(b.postings))
  }

  /** Between these states a row is committed that covers the bundle. */
  ghost predicate Covers(db: Db, next: Db, b: Bundle) {
    exists r :: r !in db.ledger && Duplicates(next, r, b.date, MatchKeys(b.postings))
  }

  lemma RowStays(db: Db, next: Db, r: LedgerRow)
    requires IdsBelow(db) && LedgerMoves(db, next) && r in db.ledger
    ensures r in next.ledger && RowKeys(next.postings, r.transactionId) == RowKeys(db.postings, r.transactionId)
  {
    hide RowKeys, PostingRows, Sort;
    if next.postings != db.postings || next.ledger != db.ledger {
      var b, response :| Gains(db, next, b, response);
      RowKeysAppend(db, next, b, r.transactionId);
    }
  }

  lemma CoveredStep(db: Db, next: Db, b: Bundle)
    requires IdsBelow(db) && LedgerMoves(db, next)
    ensures Covered(next, b) <==> Covered(db, b) || Covers(db, next, b)
  {
    hide RowKeys, LedgerMoves, MatchKeys;
    forall r | r in db.ledger
      ensures r in next.ledger && RowKeys(next.postings, r.transactionId) == RowKeys(db.postings, r.transactionId)
    {
      RowStays(db, next, r);
    }
    if r :| Duplicates(db, r, b.date, MatchKeys(b.postings)) {
      assert Duplicates(next, r, b.date, MatchKeys(b.postings));
    }
    if r :| Duplicates(next, r, b.date, MatchKeys(b.postings)) {
      assert r in db.ledger ==> Duplicates(db, r, b.date, MatchKeys(b.postings));
    }
  }

  /** Some event from `from` on and before `to` commits a row that covers the bundle. */
  ghost predicate CoveredBetween(states: seq<Config>, from: nat, to: nat, b: Bundle) {
    to < |states| && exists m :: from <= m < to && Covers(states[m].db, states[m + 1].db, b)
  }

  /** A bundle is covered exactly when it was covered before or an event in between covered it. */
  lemma {:induction false} CoveredSince(states: seq<Config>, events: seq<Event>, i: nat, j: nat, b: Bundle)
    requires Schedule(states, events) && Fresh(states[0].db) && states[0].threads == map[] && i <= j < |states|
    ensures Covered(states[j].db, b) <==> Covered(states[i].db, b) || CoveredBetween(states, i, j, b)
    decreases j
  {
    hide Schedule, Next, Covered, Covers, ConfigInv, LedgerInv, LedgerMoves, IdsBelow;
    ScheduleSize(states, events);
    if i < j {
      CoveredSince(states, events, i, j - 1, b);
      LedgerSoundThroughout(states, events, j - 1);
      LedgerIds(states[j - 1].db);
      NextAt(states, events, j - 1);
      NextMoves(states[j - 1], events[j - 1], states[j], PeriodOf(b.date), b.entityId);
      CoveredStep(states[j - 1].db, states[j].db, b);
    }
  }

  lemma LedgerIds(db: Db)
    requires LedgerInv(db)
    ensures IdsBelow(db)
  {
  }

  // ------------------------------------------------------------------ direct rows

  /** The event is the write of a call that was told to commit directly, and nothing stops the insert. */
  predicate WritesDirectly(c: Config, e: Event) {
    && e.Advance? && e.thread in c.threads
    && c.threads[e.thread].RecordCommitting? && Insertable(c.db, c.threads[e.thread].b)
  }

  predicate NewDirectRow(c: Config, c': Config, row: LedgerRow) {
    row in c'.db.ledger && row !in c.db.ledger && DirectRow(row)
  }

  /** The row that bundle becomes when it is written directly here. */
  function DirectRowOf(db: Db, b: Bundle): LedgerRow {
    CommittedRow(b, db.nextId, DirectResponse(db, b))
  }

  lemma ApprovalRowNamed(db: Db, a: DecisionIn, p: Proposal, row: LedgerRow)
    requires SharedInv(db) && Known(db, p) && p.proposalId == a.proposalId
    requires row in WriteApproval(db, a, p).0.ledger && row !in db.ledger
    ensures !DirectRow(row)
  {
    hide SharedInv, ApprovalCount, InsertBundle, Replay, Persist, Insertable, WriteCommit, Known, PostingRows;
    var current := CurrentVersion(db, p);
    StagedShared(db, a, current);
    SharedParts(db, a);
    var staged := WithApproval(db, a);
    WriteCommitShape(staged, a, p, ApprovalCount(staged.decisions, p.proposalId, Required(p)));
  }

  /** A direct row appears only by such a write, and it is that call's bundle. */
  lemma DirectRowSource(c: Config, e: Event, c': Config, row: LedgerRow)
    requires ConfigInv(c) && Next(c, e, c') && NewDirectRow(c, c', row)
    ensures WritesDirectly(c, e)
    ensures var b := c.threads[e.thread].b;
            c'.db == Appended(c.db, b, DirectResponse(c.db, b)) && row == DirectRowOf(c.db, b)
  {
    hide SharedInv, WriteApproval, WriteRejection, Known, ReportsKey, AlreadyApproved, Replay, WriteDirect;
    hide WriteProposal;
    hide AnswerWithProposal, Insertable, PostingRows, Sort, PeriodGate, PolicyFrom, DuplicateMatches, Impact;
    hide Selectable;
    var pc := c.threads[e.thread];
    assert Relies(c.db, pc);
    var selected, duplicates :| (c'.db, c'.threads[e.thread]) == Piece(c.db, pc, selected, duplicates);
    SharedIds(c.db);
    if pc.ApproveWriting? {
      ApprovalRowNamed(c.db, pc.a, pc.p, row);
    } else if pc.RejectWriting? {
      RejectionKeepsLedger(c.db, pc.a, pc.p);
    } else if pc.RecordLooking? || pc.RecoverLooking? {
      AnswerKeepsLedger(c.db, pc, duplicates);
    } else if pc.RecordProposing? && WriteProposal(c.db, pc.b, pc.policy, pc.duplicates).Some? {
      WriteProposalShape(c.db, pc.b, pc.policy, pc.duplicates);
    } else if pc.RecordCommitting? {
      WriteDirectShape(c.db, pc.b);
    }
  }

  /** The row a bundle becomes repeats an earlier row exactly when that row covers the bundle. */
  lemma Covering(db: Db, b: Bundle, r: LedgerRow)
    requires LedgerInv(db)
    ensures r in db.ledger && SameDayContained(Appended(db, b, DirectResponse(db, b)), r, DirectRowOf(db, b)) <==>
            Duplicates(db, r, b.date, MatchKeys(b.postings))
  {
    LedgerIds(db);
    hide LedgerInv, RowKeys, PostingRows, Sort, MatchKeys;
    var next := Appended(db, b, DirectResponse(db, b));
    RowKeysAppend(db, next, b, db.nextId);
    if r in db.ledger {
      RowKeysAppend(db, next, b, r.transactionId);
    }
  }

  /** In every schedule, the call behind each new direct row was let pass by each of its reads in turn.  Its row lands
    in a period that is closed or locked by then exactly when that happened after the period was read, and beside an
    earlier row of its day that covers it exactly when such a row was committed after the duplicates were read. */
  lemma DirectRowsAdmitted(states: seq<Config>, events: seq<Event>, j: nat, row: LedgerRow)
      returns (t: nat, b: Bundle, trail: Trail)
    requires Schedule(states, events) && Fresh(states[0].db) && states[0].threads == map[] && j < |events|
    requires NewDirectRow(states[j], states[j + 1], row)
    ensures events[j] == Advance(t) && row == DirectRowOf(states[j].db, b)
    ensures Admitted(states, events, j, t, b, trail)
    ensures var period := PeriodOf(row.date);
            !PeriodOpen(states[j].db, period, row.entityId) <==>
                ShutBetween(events, trail.period, j, period, row.entityId)
    ensures (exists r :: r in states[j].db.ledger && SameDayContained(states[j + 1].db, r, row)) <==>
            CoveredBetween(states, trail.duplicates, j, b)
  {
    hide Schedule, Next, ConfigInv, LedgerInv, PeriodOpen, ShutBetween, CoveredBetween, SameDayContained, Duplicates;
    hide MatchKeys, Insertable, PolicyMayAdmit, Appended, DirectResponse;
    ScheduleSize(states, events);
    LedgerSoundThroughout(states, events, j);
    NextAt(states, events, j);
    DirectRowSource(states[j], events[j], states[j + 1], row);
    t := events[j].thread;
    b := states[j].threads[t].b;
    trail := DirectWriteAdmitted(states, events, j, t);
    ShutSince(states, events, trail.period, j, PeriodOf(b.date), b.entityId);
    CoveredSince(states, events, trail.duplicates, j, b);
    forall r ensures r in states[j].db.ledger && SameDayContained(states[j + 1].db, r, row) <==>
                     Duplicates(states[j].db, r, b.date, MatchKeys(b.postings))
    {
      Covering(states[j].db, b, r);
    }
  }

  /** Rows keep their place and their pairs over any stretch of a schedule. */
  lemma {:induction false} RowKept(states: seq<Config>, events: seq<Event>, i: nat, j: nat, r: LedgerRow)
    requires Schedule(states, events) && Fresh(states[0].db) && states[0].threads == map[] && i <= j < |states|
    requires r in states[i].db.ledger
    ensures r in states[j].db.ledger
    ensures RowKeys(states[j].db.postings, r.transactionId) == RowKeys(states[i].db.postings, r.transactionId)
    decreases j
  {
    hide Schedule, Next, ConfigInv, LedgerInv, LedgerMoves, IdsBelow, RowKeys;
    ScheduleSize(states, events);
    if i < j {
      RowKept(states, events, i, j - 1, r);
      LedgerSoundThroughout(states, events, j - 1);
      LedgerIds(states[j - 1].db);
      NextAt(states, events, j - 1);
      NextMoves(states[j - 1], events[j - 1], states[j], PeriodOf(r.date), r.entityId);
      RowStays(states[j - 1].db, states[j].db, r);
    }
  }

  /** A direct row that lands after its period was shut is of a call already past its period read then, and one that
    lands beside a row already in the ledger then is of a call already told to commit. */
  lemma DirectRowsAfter(states: seq<Config>, events: seq<Event>, i: nat, j: nat, row: LedgerRow)
      returns (t: nat, b: Bundle)
    requires Schedule(states, events) && Fresh(states[0].db) && states[0].threads == map[] && i <= j < |events|
    requires NewDirectRow(states[j], states[j + 1], row)
    ensures events[j] == Advance(t) && row == DirectRowOf(states[j].db, b)
    ensures !PeriodOpen(states[i].db, PeriodOf(row.date), row.entityId) ==>
              t in states[i].threads && PastPeriod(states[i].threads[t], b)
    ensures (exists r :: r in states[i].db.ledger && SameDayContained(states[j + 1].db, r, row)) ==>
              t in states[i].threads && states[i].threads[t] == RecordCommitting(b)
  {
    hide Schedule, Next, ConfigInv, LedgerInv, PeriodOpen, ShutBetween, CoveredBetween, MatchKeys, RowKeys;
    hide PolicyMayAdmit;
    hide Appended, DirectResponse, NewDirectRow;
    ScheduleSize(states, events);
    var trail;
    t, b, trail := DirectRowsAdmitted(states, events, j, row);
    if i <= trail.period {
      ShutSince(states, events, i, trail.period, PeriodOf(row.date), row.entityId);
    }
    if r :| r in states[i].db.ledger && SameDayContained(states[j + 1].db, r, row) {
      if i <= trail.duplicates {
        RowKept(states, events, i, trail.duplicates, r);
        EarlierRepeat(states, events, trail.duplicates, j, row, t, b, r);
      }
    }
  }

  /** A row that covers the bundle when it is written covered it ever since it is in the ledger. */
  lemma EarlierRepeat(states: seq<Config>, events: seq<Event>, i: nat, j: nat, row: LedgerRow, t: nat, b: Bundle,
                      r: LedgerRow)
    requires Schedule(states, events) && Fresh(states[0].db) && states[0].threads == map[] && i <= j < |events|
    requires NewDirectRow(states[j], states[j + 1], row) && row == DirectRowOf(states[j].db, b)
    requires t in states[j].threads && states[j].threads[t] == RecordCommitting(b) && events[j] == Advance(t)
    requires r in states[i].db.ledger && SameDayContained(states[j + 1].db, r, row)
    ensures Duplicates(states[i].db, r, b.date, MatchKeys(b.postings))
  {
    hide Schedule, Next, ConfigInv, LedgerInv, SameDayContained, MatchKeys, RowKeys, Insertable, Appended;
    hide DirectResponse;
    ScheduleSize(states, events);
    LedgerSoundThroughout(states, events, j);
    NextAt(states, events, j);
    DirectRowSource(states[j], events[j], states[j + 1], row);
    RowKept(states, events, i, j, r);
    Covering(states[j].db, b, r);
  }

  /** A call never lands a direct row in a period that was shut when it arrived, nor beside a row that was in the ledger
    when it arrived. */
  lemma LateArrivalsNeverLand(states: seq<Config>, events: seq<Event>, i: nat, j: nat, row: LedgerRow)
    requires Schedule(states, events) && Fresh(states[0].db) && states[0].threads == map[] && i < j < |events|
    requires events[i].Arrive? && events[j] == Advance(events[i].thread)
    requires NewDirectRow(states[j], states[j + 1], row)
    ensures PeriodOpen(states[i].db, PeriodOf(row.date), row.entityId)
    ensures forall r :: r in states[i].db.ledger ==> !SameDayContained(states[j + 1].db, r, row)
  {
    hide Schedule, PeriodOpen, SameDayContained, NewDirectRow, PastPeriod, DirectRowOf;
    ScheduleSize(states, events);
    NextAt(states, events, i);
    var t, b := DirectRowsAfter(states, events, i, j, row);
  }

  // ------------------------------------------------------------------ what a shut period may still take

  /** A call that can still land a direct row whatever its period has become: it is past its period read and nothing
    it read asks for approval, its key is free, and its bundle is uncovered unless it is past the duplicates too. */
  ghost predicate MayStillLand(db: Db, pc: Pc) {
    && (pc.RecordPolicy? || pc.RecordDuplicates? || pc.RecordCommitting?)
    && PastPeriod(pc, pc.b)
    && AllUsd(pc.b.postings) && FindRow(db.ledger, pc.b.sourceSystem, pc.b.externalId).None?
    && (pc.RecordCommitting? || !Covered(db, pc.b))
  }

  ghost predicate Continues(states: seq<Config>, events: seq<Event>, states': seq<Config>, events': seq<Event>) {
    Schedule(states', events') && states <= states' && events <= events'
  }

  /** Some event from the i-th on lands a direct row in this period. */
  ghost predicate LandsFrom(states: seq<Config>, events: seq<Event>, i: nat, key: PeriodKey, entityId: string) {
    && |states| == |events| + 1
    && exists j, row :: i <= j < |events| && NewDirectRow(states[j], states[j + 1], row)
                        && PeriodOf(row.date) == key && row.entityId == entityId
  }

  lemma FreeBefore(ledger: seq<LedgerRow>, grown: seq<LedgerRow>, sourceSystem: string, externalId: string)
    requires FindRow(grown, sourceSystem, externalId).None? && forall r :: r in ledger ==> r in grown
    ensures FindRow(ledger, sourceSystem, externalId).None?
  {
  }

  /** Whoever lands a direct row in a period that was shut before could still land then. */
  lemma LandedMight(states: seq<Config>, events: seq<Event>, i: nat, j: nat, row: LedgerRow) returns (t: nat)
    requires Schedule(states, events) && Fresh(states[0].db) && states[0].threads == map[] && i <= j < |events|
    requires NewDirectRow(states[j], states[j + 1], row) && !PeriodOpen(states[i].db, PeriodOf(row.date), row.entityId)
    ensures t in states[i].threads && MayStillLand(states[i].db, states[i].threads[t])
    ensures states[i].threads[t].b.date == row.date && states[i].threads[t].b.entityId == row.entityId
  {
    hide Schedule, Next, ConfigInv, LedgerInv, PeriodOpen, ShutBetween, CoveredBetween, MatchKeys, PolicyMayAdmit;
    hide Appended, DirectResponse, Duplicates, FindRow, AllUsd, SameDayContained;
    ScheduleSize(states, events);
    var b, trail;
    t, b, trail := DirectRowsAdmitted(states, events, j, row);
    if i <= trail.period {
      ShutSince(states, events, i, trail.period, PeriodOf(row.date), row.entityId);
    }
    if i <= trail.duplicates {
      CoveredSince(states, events, i, trail.duplicates, b);
    }
    LedgerSoundThroughout(states, events, j);
    NextAt(states, events, j);
    DirectRowSource(states[j], events[j], states[j + 1], row);
    InsertedUsd(states[j].db, b);
    forall r | r in states[i].db.ledger ensures r in states[j].db.ledger {
      RowKept(states, events, i, j, r);
    }
    FreeBefore(states[i].db.ledger, states[j].db.ledger, b.sourceSystem, b.externalId);
  }

  lemma InsertedUsd(db: Db, b: Bundle)
    requires Insertable(db, b)
    ensures AllUsd(b.postings)
  {
  }

  /** The accounts of all legs are opened. */
  lemma {:induction false} AccountsOpened(states: seq<Config>, events: seq<Event>, legs: seq<Posting>)
      returns (states': seq<Config>, events': seq<Event>)
    requires Schedule(states, events)
    ensures Continues(states, events, states', events')
    ensures var c, c' := Last(states), Last(states');
            && c' == c.(db := c.db.(accounts := c'.db.accounts))
            && (forall id :: id in c.db.accounts ==> id in c'.db.accounts)
            && forall p :: p in legs ==> p.accountId in c'.db.accounts
    decreases |legs|
  {
    hide Schedule, Next;
    ScheduleSize(states, events);
    if legs == [] {
      states', events' := states, events;
    } else {
      states', events' := Changed(states, events, AddAccount(legs[0].accountId));
      ScheduleSize(states', events');
      states', events' := AccountsOpened(states', events', legs[1..]);
      assert legs == [legs[0]] + legs[1..];
    }
  }

  /** Once the accounts, the entity and a lenient policy are there, the call only has to go on. */
  lemma ReadyToLand(states: seq<Config>, events: seq<Event>, b: Bundle)
      returns (states': seq<Config>, events': seq<Event>)
    requires Schedule(states, events)
    requires AllUsd(b.postings) && FindRow(Last(states).db.ledger, b.sourceSystem, b.externalId).None?
    ensures Continues(states, events, states', events')
    ensures var c, c' := Last(states), Last(states');
            && c' == c.(db := c'.db) && c'.db.ledger == c.db.ledger && c'.db.postings == c.db.postings
            && Insertable(c'.db, b) && c'.db.rules == [] && Impact(b.postings) <= c'.db.fallbackThreshold
  {
    hide Schedule, Impact, FindRow;
    ScheduleSize(states, events);
    states', events' := AccountsOpened(states, events, b.postings);
    states', events' := Changed(states', events', AddEntity(b.entityId));
    states', events' := Changed(states', events', SetPolicy([], Max(0, Impact(b.postings))));
  }

  /** One more step of the call, towards its write. */
  lemma OneStepOn(states: seq<Config>, events: seq<Event>, t: nat, b: Bundle)
      returns (states': seq<Config>, events': seq<Event>)
    requires Schedule(states, events) && t in Last(states).threads
    requires var db, pc := Last(states).db, Last(states).threads[t];
             && PastPeriod(pc, b) && !pc.RecordCommitting? && !Covered(db, b)
             && db.rules == [] && Impact(b.postings) <= db.fallbackThreshold
    ensures Continues(states, events, states', events')
    ensures Last(states').db == Last(states).db && t in Last(states').threads && PastPeriod(Last(states').threads[t], b)
    ensures Last(states).threads[t].RecordDuplicates? ==> Last(states').threads[t] == RecordCommitting(b)
    ensures Last(states).threads[t].RecordPolicy? ==> Last(states').threads[t].RecordDuplicates?
  {
    hide Schedule, Impact, Duplicates, MatchKeys, DuplicateMatches;
    ScheduleSize(states, events);
    DuplicatesExactly(Last(states).db, b);
    assert Selectable(Last(states).db, b, None);
    states', events' := Advanced(states, events, t, None);
  }

  lemma Landing(states: seq<Config>, events: seq<Event>, t: nat, b: Bundle)
      returns (states': seq<Config>, events': seq<Event>)
    requires Schedule(states, events) && Fresh(states[0].db) && states[0].threads == map[]
    requires t in Last(states).threads && Last(states).threads[t].RecordCommitting? && Last(states).threads[t].b == b
    requires Insertable(Last(states).db, b)
    ensures Continues(states, events, states', events')
    ensures LandsFrom(states', events', |events|, PeriodOf(b.date), b.entityId)
  {
    hide Schedule, Insertable, LedgerInv, SharedInv, IdsBelow, PostingRows, Sort, Piece, Relies;
    ScheduleSize(states, events);
    LedgerSoundThroughout(states, events, |states| - 1);
    LedgerIds(Last(states).db);
    var db, row := Last(states).db, DirectRowOf(Last(states).db, b);
    states', events' := Advanced(states, events, t, None);
    CommittingLands(db, b);
    assert states'[|events|] == Last(states);
    assert NewDirectRow(states'[|events|], states'[|events| + 1], row);
  }

  lemma CommittingLands(db: Db, b: Bundle)
    requires IdsBelow(db) && Insertable(db, b)
    ensures var next, row := Piece(db, RecordCommitting(b), None, None).0, DirectRowOf(db, b);
            row in next.ledger && row !in db.ledger && DirectRow(row)
  {
    hide WriteDirect, Insertable, PostingRows, Sort;
    WriteDirectShape(db, b);
  }

  lemma StillUncovered(db: Db, next: Db, b: Bundle)
    requires next.ledger == db.ledger && next.postings == db.postings
    ensures Covered(next, b) <==> Covered(db, b)
  {
    hide RowKeys, MatchKeys;
    if r :| Duplicates(db, r, b.date, MatchKeys(b.postings)) {
      assert Duplicates(next, r, b.date, MatchKeys(b.postings));
    }
    if r :| Duplicates(next, r, b.date, MatchKeys(b.postings)) {
      assert Duplicates(db, r, b.date, MatchKeys(b.postings));
    }
  }

  lemma EarlierToo(states: seq<Config>, events: seq<Event>, i: nat, k: nat, key: PeriodKey, entityId: string)
    requires LandsFrom(states, events, i, key, entityId) && k <= i
    ensures LandsFrom(states, events, k, key, entityId)
  {
    hide NewDirectRow;
  }

  lemma Landed(states: seq<Config>, events: seq<Event>, t: nat) returns (states': seq<Config>, events': seq<Event>)
    requires Schedule(states, events) && Fresh(states[0].db) && states[0].threads == map[]
    requires t in Last(states).threads && MayStillLand(Last(states).db, Last(states).threads[t])
    ensures Continues(states, events, states', events')
    ensures var b := Last(states).threads[t].b; LandsFrom(states', events', |events|, PeriodOf(b.date), b.entityId)
  {
    hide Schedule, Impact, Duplicates, MatchKeys, FindRow, AllUsd, NewDirectRow, PostingRows, Sort;
    ScheduleSize(states, events);
    var b := Last(states).threads[t].b;
    states', events' := ReadyToLand(states, events, b);
    ScheduleSize(states', events');
    StillUncovered(Last(states).db, Last(states').db, b);
    if Last(states').threads[t].RecordPolicy? {
      states', events' := OneStepOn(states', events', t, b);
      ScheduleSize(states', events');
    }
    if Last(states').threads[t].RecordDuplicates? {
      states', events' := OneStepOn(states', events', t, b);
      ScheduleSize(states', events');
    }
    var n := |events'|;
    states', events' := Landing(states', events', t, b);
    EarlierToo(states', events', n, |events|, PeriodOf(b.date), b.entityId);
  }

  /** Some continuation of the schedule lands a direct row in this period. */
  ghost predicate MayTakeDirect(states: seq<Config>, events: seq<Event>, key: PeriodKey, entityId: string) {
    exists states', events' ::
      Continues(states, events, states', events') && LandsFrom(states', events', |events|, key, entityId)
  }

  /** A call of this period that may still land. */
  ghost predicate Underway(c: Config, t: nat, key: PeriodKey, entityId: string) {
    && t in c.threads && MayStillLand(c.db, c.threads[t])
    && PeriodOf(c.threads[t].b.date) == key && c.threads[t].b.entityId == entityId
  }

  lemma ContinuesFrom(states: seq<Config>, events: seq<Event>, states': seq<Config>, events': seq<Event>)
    requires Schedule(states, events) && Continues(states, events, states', events')
    ensures Schedule(states', events') && |states| == |events| + 1 <= |states'|
    ensures states'[0] == states[0] && states'[|events|] == Last(states)
  {
    hide Next;
  }

  lemma LandsAt(states: seq<Config>, events: seq<Event>, i: nat, key: PeriodKey, entityId: string)
      returns (j: nat, row: LedgerRow)
    requires LandsFrom(states, events, i, key, entityId)
    ensures i <= j < |events| && |states| == |events| + 1 && NewDirectRow(states[j], states[j + 1], row)
    ensures PeriodOf(row.date) == key && row.entityId == entityId
  {
    hide NewDirectRow;
    j, row :| i <= j < |events| && NewDirectRow(states[j], states[j + 1], row)
              && PeriodOf(row.date) == key && row.entityId == entityId;
  }

  lemma TakenMeansUnderway(states: seq<Config>, events: seq<Event>, states': seq<Config>, events': seq<Event>,
                           key: PeriodKey, entityId: string) returns (t: nat)
    requires Schedule(states, events) && Fresh(states[0].db) && states[0].threads == map[]
    requires !PeriodOpen(Last(states).db, key, entityId)
    requires Continues(states, events, states', events') && LandsFrom(states', events', |events|, key, entityId)
    ensures Underway(Last(states), t, key, entityId)
  {
    hide Schedule, PeriodOpen, MayStillLand, NewDirectRow, Continues, LandsFrom, Fresh;
    ContinuesFrom(states, events, states', events');
    var j, row := LandsAt(states', events', |events|, key, entityId);
    t := LandedMight(states', events', |events|, j, row);
  }

  /** A shut period may still take a direct row, on some continuation of the schedule, exactly when some call of that
    period is past its reads this far and its key is free.  No call still to come can land one. */
  lemma ShutPeriodTakesDirectExactly(states: seq<Config>, events: seq<Event>, key: PeriodKey, entityId: string)
    requires Schedule(states, events) && Fresh(states[0].db) && states[0].threads == map[]
    requires !PeriodOpen(Last(states).db, key, entityId)
    ensures MayTakeDirect(states, events, key, entityId) <==> exists t :: Underway(Last(states), t, key, entityId)
  {
    hide Schedule, PeriodOpen, MayStillLand, Continues, LandsFrom;
    ScheduleSize(states, events);
    if states', events' :|
         Continues(states, events, states', events') && LandsFrom(states', events', |events|, key, entityId)
    {
      var t := TakenMeansUnderway(states, events, states', events', key, entityId);
    }
    if t :| Underway(Last(states), t, key, entityId) {
      var states', events' := Landed(states, events, t);
    }
  }

  // ------------------------------------------------------------------ a close, and a copy, between read and write

  /** The write of a call that was told to commit directly. */
  lemma Written(states: seq<Config>, events: seq<Event>, t: nat, b: Bundle)
      returns (states': seq<Config>, events': seq<Event>)
    requires Schedule(states, events) && t in Last(states).threads && Last(states).threads[t] == RecordCommitting(b)
    requires IdsBelow(Last(states).db) && Insertable(Last(states).db, b)
    ensures Schedule(states', events') && |states'| == |states| + 1 && states'[0] == states[0]
    ensures var c, c' := Last(states), Last(states');
            && c'.db == Appended(c.db, b, DirectResponse(c.db, b))
            && t in c'.threads && c'.threads == c.threads[t := c'.threads[t]]
  {
    hide Schedule, IdsBelow, Insertable, WriteDirect, Appended;
    ScheduleSize(states, events);
    WriteDirectShape(Last(states).db, b);
    states', events' := Advanced(states, events, t, None);
  }

  /** A transfer is admitted, its month is closed, the transfer is written: a direct row in a closed month. */
  lemma LateCloseSchedule() returns (states: seq<Config>, events: seq<Event>, row: LedgerRow)
    ensures Schedule(states, events) && states[0] == Config(LENIENT, map[]) && Fresh(LENIENT)
    ensures row in Last(states).db.ledger && DirectRow(row)
    ensures !PeriodOpen(Last(states).db, PeriodOf(row.date), row.entityId)
  {
    SamplePasses();
    hide Schedule, GateOf, Insertable, PostingRows, Sort;
    states, events := Nobody(LENIENT);
    states, events := ReadsTheGate(states, events, 0, TRANSFER);
    states, events := Changed(states, events, ClosePeriodCall(PeriodOf(TRANSFER.date), "entity-default"));
    var closed := Last(states).db;
    StillFree(LENIENT, closed, TRANSFER);
    states, events := Written(states, events, 0, TRANSFER);
    row := CommittedRow(TRANSFER, closed.nextId, DirectResponse(closed, TRANSFER));
  }

  lemma StillFree(db: Db, next: Db, b: Bundle)
    requires Insertable(db, b) && next == db.(periods := next.periods)
    ensures Insertable(next, b)
  {
    hide FindRow;
  }

  /** The same transfer under two keys: both are admitted before either is written, so the second repeats the first
    without approval. */
  lemma LateDuplicateSchedule() returns (states: seq<Config>, events: seq<Event>)
    ensures Schedule(states, events) && states[0] == Config(LENIENT, map[]) && Fresh(LENIENT)
    ensures !DuplicatesApproved(Last(states).db)
  {
    SamplePasses();
    hide Schedule, GateOf, Insertable, Appended, DuplicatesApproved;
    states, events := Nobody(LENIENT);
    states, events := ReadsTheGate(states, events, 0, TRANSFER);
    states, events := ReadsTheGate(states, events, 1, REPEAT);
    FirstWritten();
    states, events := Written(states, events, 0, TRANSFER);
    states, events := Written(states, events, 1, REPEAT);
    SecondRepeats();
  }

  const ONCE := Appended(LENIENT, TRANSFER, DirectResponse(LENIENT, TRANSFER))

  const TWICE := Appended(ONCE, REPEAT, DirectResponse(ONCE, REPEAT))

  lemma FirstWritten()
    ensures IdsBelow(LENIENT) && IdsBelow(ONCE) && Insertable(ONCE, REPEAT)
  {
    SamplePasses();
    FreshInv(LENIENT);
    InvParts(LENIENT);
    hide GateOf, PostingRows, Sort, Inv;
    AppendKeepsLedgerIds();
    assert FindRow(ONCE.ledger, "bank", "43").None?;
  }

  lemma AppendKeepsLedgerIds()
    ensures IdsBelow(ONCE)
  {
    SamplePasses();
    FreshInv(LENIENT);
    hide GateOf, PostingRows, Sort, PostingsOwned, RowsComplete, AlwaysBalanced, LedgerKeysUnique, Insertable;
    AppendKeepsLedger(LENIENT, TRANSFER, DirectResponse(LENIENT, TRANSFER));
  }

  lemma SecondRepeats()
    ensures !DuplicatesApproved(TWICE)
  {
    FirstWritten();
    SamePairs();
    hide PostingRows, Sort, RowKeys, MatchKeys, Insertable, IdsBelow;
    RowKeysAppend(LENIENT, ONCE, TRANSFER, LENIENT.nextId);
    RowKeysAppend(ONCE, TWICE, REPEAT, LENIENT.nextId);
    RowKeysAppend(ONCE, TWICE, REPEAT, ONCE.nextId);
    assert SameDayContained(TWICE, TWICE.ledger[0], TWICE.ledger[1]);
  }

  lemma SamePairs()
    ensures MatchKeys(REPEAT.postings) == MatchKeys(TRANSFER.postings) && MatchKeys(TRANSFER.postings) != {}
  {
    assert (TRANSFER.postings[0].accountId, Units(TRANSFER.postings[0])) in MatchKeys(TRANSFER.postings);
  }
}
