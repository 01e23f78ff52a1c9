/** What an account's balance on a day is: the total of its legs on bundles dated on or before that day
  (src/capital_os/domain/ledger/repository.py, fetch_account_balance_context and
  fetch_account_balances_as_of). */
module Balances {
  import opened Ordering
  import opened Money
  import opened Calendar
  import opened LedgerTables
  import opened LedgerTools
  import opened LedgerInvariants
  import opened ProposalLifecycle
  import opened LedgerRuns
  import opened Recorded

  function LegOn(accountId: string): Posting -> int {
    (leg: Posting) => if leg.accountId == accountId then Normalize(leg.amount) else 0
  }

  /** What a bundle contributes to an account's balance on a day. */
  function Contribution(accountId: string, asOf: Day): Bundle -> int {
    (b: Bundle) => if Ordinal(b.date.day) <= Ordinal(asOf) then SumBy(LegOn(accountId), b.postings) else 0
  }

  lemma {:induction false} PostedLegs(rows: seq<PostingRow>, legs: seq<Posting>, owner: nat, accountId: string,
                                      f: PostingRow -> int, counted: bool)
    requires |rows| == |legs|
    requires forall i :: 0 <= i < |legs| ==>
               rows[i].accountId == legs[i].accountId && rows[i].amount == Normalize(legs[i].amount)
    requires forall x :: x in rows ==> f(x) == if x.accountId == accountId && counted then x.amount else 0
    ensures SumBy(f, rows) == if counted then SumBy(LegOn(accountId), legs) else 0
  {
    hide Normalize;
    if rows != [] {
      assert rows[0] in rows;
      PostedLegs(rows[1..], legs[1..], owner, accountId, f, counted);
    }
  }

  /** Committing a bundle adds its legs on an account to that account's balance on every day from the bundle's own on,
    and leaves the balances of earlier days alone. */
  lemma CommitMovesBalance(db: Db, next: Db, b: Bundle, r: LedgerRow, accountId: string, asOf: Day)
    requires IdsBelow(db) && Commits(db, next, b, r)
    ensures Balance(next, accountId, asOf) == Balance(db, accountId, asOf) + Contribution(accountId, asOf)(b)
  {
    hide Ordinal, Normalize, InLegOrder, IsRowOf;
    var legs, rows :| multiset(legs) == multiset(b.postings) && InLegOrder(legs)
                      && ArePosted(rows, legs, r.transactionId) && next.postings == db.postings + rows;
    RowKeeps(r, b);
    OrdinalOrder(asOf, b.date.day);
    var before, after := PostedTo(db.ledger, accountId, asOf), PostedTo(next.ledger, accountId, asOf);
    forall x | x in db.postings
      ensures before(x) == after(x)
    {
      assert x.transactionId != r.transactionId;
    }
    forall x | x in rows
      ensures after(x) == if x.accountId == accountId && Ordinal(b.date.day) <= Ordinal(asOf) then x.amount else 0
    {
      assert r in next.ledger && x.transactionId == r.transactionId;
    }
    SumByAgree(before, after, db.postings);
    SumByConcat(after, db.postings, rows);
    PostedLegs(rows, legs, r.transactionId, accountId, after, Ordinal(b.date.day) <= Ordinal(asOf));
    SumByPermutation(LegOn(accountId), legs, b.postings);
  }

  lemma RowKeeps(r: LedgerRow, b: Bundle)
    requires IsRowOf(r, b)
    ensures r.date == b.date
  {
  }

  /** A bundle some call asked to commit: recorded directly, or stored with a proposal. */
  predicate AskedFor(db: Db, call: Call, b: Bundle) {
    call == RecordCall(b) || exists p :: p in db.proposals && p.request == b
  }

  /** One call leaves the ledger and its postings alone or commits one bundle that was asked for. */
  lemma StepCommits(db: Db, call: Call)
    requires Inv(db)
    ensures var next := Step(db, call);
            || (next.ledger == db.ledger && next.postings == db.postings)
            || exists b, r :: Commits(db, next, b, r) && AskedFor(db, call, b)
  {
    hide Record, ApproveProposal, RejectProposal, Inv, Commits;
    match call {
      case RecordCall(b) =>
        RecordCommits(db, b);
      case ApproveCall(a) =>
        ApproveCommits(db, a);
      case RejectCall(a) =>
        RejectKeeps(db, a);
      case _ =>
    }
  }

  lemma RecordCommits(db: Db, b: Bundle)
    requires Inv(db)
    ensures var next := Record(db, b).0;
            (next.ledger == db.ledger && next.postings == db.postings) || exists r :: Commits(db, next, b, r)
  {
    hide Record, Inv, Commits, GateOf, Sort, PostingRows;
    InvParts(db);
    RecordShape(db, b);
    AppendedCommits(db, b, DirectResponse(db, b));
  }

  lemma ApproveCommits(db: Db, a: DecisionIn)
    requires Inv(db)
    ensures var next := ApproveProposal(db, a).0;
            || (next.ledger == db.ledger && next.postings == db.postings)
            || exists p, r :: p in db.proposals && Commits(db, next, p.request, r)
  {
    hide ApproveProposal, Inv, Commits, Redecided, Tally, HasApproved, IsPendingAnswer, IsCommitAnswer, InLedger;
    ApproveAnswersExactly(db, a);
    if p :| p in db.proposals && p.proposalId == a.proposalId {
      if p.status == Pending && (p.requiredApprovals > 1 ==> Named(a.approverId)) {
        ApprovePendingExactly(db, a, p);
      }
    }
  }

  lemma RejectKeeps(db: Db, a: DecisionIn)
    requires Inv(db)
    ensures var next := RejectProposal(db, a).0; next.ledger == db.ledger && next.postings == db.postings
  {
    hide RejectProposal, Inv, Redecided;
    RejectExactly(db, a);
    if p :| p in db.proposals && p.proposalId == a.proposalId {
    }
  }

  /** The ledger's rows hold these bundles one by one, and every balance is the total of what they contribute. */
  ghost predicate Holds(db: Db, landed: seq<Bundle>) {
    && |landed| == |db.ledger|
    && (forall k :: 0 <= k < |landed| ==> IsRowOf(db.ledger[k], landed[k]))
    && forall accountId: string, asOf: Day ::
         Balance(db, accountId, asOf) == SumBy(Contribution(accountId, asOf), landed)
  }

  /** Some call of the run recorded this bundle, or a proposal of its last state stores it. */
  predicate AskedIn(db: Db, calls: seq<Call>, b: Bundle) {
    RecordCall(b) in calls || exists p :: p in Run(db, calls).proposals && p.request == b
  }

  lemma StillAsked(db: Db, calls: seq<Call>, call: Call, b: Bundle)
    requires Inv(db) && (AskedIn(db, calls, b) || AskedFor(Run(db, calls), call, b))
    ensures AskedIn(db, calls + [call], b)
  {
    hide Inv, Step;
    var before := Run(db, calls);
    RunAppend(db, calls, call);
    RunKeepsInv(db, calls);
    StepExtends(before, call);
    if p :| p in before.proposals && p.request == b {
      var i :| 0 <= i < |before.proposals| && before.proposals[i] == p;
      assert Advances(before.proposals[i], Step(before, call).proposals[i]);
      assert Step(before, call).proposals[i].request == b;
    }
  }

  /** After any run of a fresh database, every account's balance on every day is the total of its legs on the committed
    bundles dated on or before that day.  The ledger's rows hold these bundles one by one, and each was asked for. */
  lemma {:induction false} BalancesOverRuns(db: Db, calls: seq<Call>) returns (landed: seq<Bundle>)
    requires Fresh(db)
    ensures Holds(Run(db, calls), landed) && forall b :: b in landed ==> AskedIn(db, calls, b)
    decreases |calls|
  {
    hide Inv, Step, Holds, AskedIn, AskedFor;
    if calls == [] {
      landed := [];
      NothingYet(db);
    } else {
      var n := |calls| - 1;
      var before := Run(db, calls[..n]);
      landed := BalancesOverRuns(db, calls[..n]);
      FreshInv(db);
      RunKeepsInv(db, calls[..n]);
      assert calls == calls[..n] + [calls[n]];
      RunAppend(db, calls[..n], calls[n]);
      StepCommits(before, calls[n]);
      forall b | AskedIn(db, calls[..n], b) || AskedFor(before, calls[n], b) ensures AskedIn(db, calls, b) {
        StillAsked(db, calls[..n], calls[n], b);
      }
      var next := Step(before, calls[n]);
      if next.ledger == before.ledger && next.postings == before.postings {
        SameTables(before, next, landed);
      } else {
        var b, r :| Commits(before, next, b, r) && AskedFor(before, calls[n], b);
        InvParts(before);
        OneMoreLanded(before, next, b, r, landed);
        landed := landed + [b];
      }
    }
  }

  lemma NothingYet(db: Db)
    requires Fresh(db)
    ensures Holds(db, [])
  {
  }

  lemma SameTables(db: Db, next: Db, landed: seq<Bundle>)
    requires Holds(db, landed) && next.ledger == db.ledger && next.postings == db.postings
    ensures Holds(next, landed)
  {
    hide SumBy, IsRowOf;
    forall accountId: string, asOf: Day
      ensures Balance(next, accountId, asOf) == SumBy(Contribution(accountId, asOf), landed)
    {
      assert Balance(next, accountId, asOf) == Balance(db, accountId, asOf);
    }
  }

  lemma OneMoreLanded(db: Db, next: Db, b: Bundle, r: LedgerRow, landed: seq<Bundle>)
    requires IdsBelow(db) && Holds(db, landed) && Commits(db, next, b, r)
    ensures Holds(next, landed + [b])
  {
    hide SumBy, IsRowOf, IdsBelow, Contribution, Balance, InLegOrder, ArePosted;
    forall accountId: string, asOf: Day
      ensures Balance(next, accountId, asOf) == SumBy(Contribution(accountId, asOf), landed + [b])
    {
      CommitMovesBalance(db, next, b, r, accountId, asOf);
      SumByAppend(Contribution(accountId, asOf), landed, b);
    }
  }
}
