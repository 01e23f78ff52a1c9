/** What the ledger's tables always satisfy, and that committing one bundle keeps it. */
module LedgerInvariants {
  import opened Wrappers
  import opened Ordering
  import opened Money
  import opened Calendar
  import opened LedgerTables
  import opened LedgerTools

  // ------------------------------------------------------------------ the ledger tables

  predicate KeysDiffer(a: LedgerRow, b: LedgerRow) {
    a.transactionId != b.transactionId && !HasKey(a, b.sourceSystem, b.externalId)
  }

  /** One row per transaction id and per (source_system, external_id). */
  predicate LedgerKeysUnique(ledger: seq<LedgerRow>) {
    forall i, j :: 0 <= i < j < |ledger| ==> KeysDiffer(ledger[i], ledger[j])
  }

  predicate IdsBelow(db: Db) {
    && (forall r :: r in db.ledger ==> r.transactionId < db.nextId)
    && (forall p :: p in db.postings ==> p.postingId < db.nextId && p.transactionId < db.nextId)
    && (forall p :: p in db.proposals ==> p.proposalId < db.nextId)
    && (forall d :: d in db.decisions ==> d.proposalId < db.nextId)
  }

  /** No orphan posting: each belongs to a ledger row and posts USD to a known account. */
  predicate PostingsOwned(db: Db) {
    forall p :: p in db.postings ==>
      && (exists r :: r in db.ledger && r.transactionId == p.transactionId)
      && p.accountId in db.accounts
      && p.currency == "USD"
  }

  /** One transaction's posting rows, in insertion order. */
  function RowsFor(postings: seq<PostingRow>, transactionId: nat): seq<PostingRow> {
    if postings == [] then []
    else
      var last := postings[|postings| - 1];
      RowsFor(postings[..|postings| - 1], transactionId) + (if last.transactionId == transactionId then [last] else [])
  }

  function PostingIds(rows: seq<PostingRow>): seq<nat> {
    seq(|rows|, i requires 0 <= i < |rows| => rows[i].postingId)
  }

  /** The posting rows a bundle turns into: its legs in insertion order, normalised, under consecutive ids. */
  function LegsOf(b: Bundle, transactionId: nat): seq<PostingRow> {
    PostingRows(Sort(PostingLe, b.postings), transactionId, transactionId + 1)
  }

  /** A row whose saved response names the row itself and all of its postings, under the right hash. */
  predicate Complete(postings: seq<PostingRow>, r: LedgerRow) {
    && r.response.Some?
    && var saved := r.response.value;
    && saved.status == Committed
    && saved.body.CommittedBody?
    && saved.body.transactionId == r.transactionId
    && saved.body.postingIds == PostingIds(RowsFor(postings, r.transactionId))
    && saved.outputHash == Digest(saved.body)
  }

  predicate RowsComplete(db: Db) {
    forall r :: r in db.ledger ==> Complete(db.postings, r)
  }

  function PostedAmount(ledger: seq<LedgerRow>, asOf: Day): PostingRow -> int {
    (p: PostingRow) => if PostedBy(ledger, p, asOf) then p.amount else 0
  }

  /** All postings dated on or before `asOf`. */
  function PostedTotal(db: Db, asOf: Day): int {
    SumBy(PostedAmount(db.ledger, asOf), db.postings)
  }

  ghost predicate AlwaysBalanced(db: Db) {
    forall asOf: Day :: PostedTotal(db, asOf) == 0
  }

  ghost predicate LedgerInv(db: Db) {
    LedgerKeysUnique(db.ledger) && IdsBelow(db) && PostingsOwned(db) && RowsComplete(db) && AlwaysBalanced(db)
  }

  /** The ledger invariant only looks at the ledger's own tables and the accounts. */
  lemma LedgerFrame(db: Db, next: Db)
    requires LedgerInv(db)
    requires next.ledger == db.ledger && next.postings == db.postings && db.accounts <= next.accounts
    requires IdsBelow(next)
    ensures LedgerInv(next)
  {
    forall asOf: Day
      ensures PostedTotal(next, asOf) == 0
    {
      assert PostedTotal(next, asOf) == PostedTotal(db, asOf);
    }
  }

  // ------------------------------------------------------------------ what one committed bundle adds

  /** The header with its response saved. */
  function CommittedRow(b: Bundle, id: nat, response: Response): LedgerRow {
    HeaderRow(b, id).(response := Some(response))
  }

  /** Insertion accepted everything: the key was free, the entity known and every leg acceptable. */
  predicate Insertable(db: Db, b: Bundle) {
    && FindRow(db.ledger, b.sourceSystem, b.externalId).None?
    && b.entityId in db.entities
    && forall p :: p in b.postings ==> Acceptable(db, p)
  }

  /** The state with the bundle's row, postings and response in place. */
  function Appended(db: Db, b: Bundle, response: Response): Db {
    var id := db.nextId;
    var postings := Sort(PostingLe, b.postings);
    db.(ledger := db.ledger + [CommittedRow(b, id, response)],
        postings := db.postings + PostingRows(postings, id, id + 1),
        nextId := id + 1 + |postings|)
  }

  lemma PostingLePreorder()
    ensures Preorder(PostingLe)
  {
    StrLeLaws();
  }

  lemma SortedPostings(b: Bundle)
    ensures multiset(Sort(PostingLe, b.postings)) == multiset(b.postings)
    ensures |Sort(PostingLe, b.postings)| == |b.postings|
    ensures forall p :: p in Sort(PostingLe, b.postings) <==> p in b.postings
  {
    PostingLePreorder();
    SortCorrect(PostingLe, b.postings);
    var s := Sort(PostingLe, b.postings);
    forall p ensures p in s <==> p in b.postings {
      assert p in s <==> p in multiset(s);
    }
  }

  lemma {:induction false} AllAccepted(db: Db, postings: seq<Posting>)
    ensures AcceptedPrefix(db, postings) == |postings| <==> forall p :: p in postings ==> Acceptable(db, p)
  {
    if postings != [] {
      AllAccepted(db, postings[1..]);
      assert postings == [postings[0]] + postings[1..];
    }
  }

  /** Which legs are accepted depends on the accounts alone. */
  lemma {:induction false} SamePrefix(a: Db, b: Db, legs: seq<Posting>)
    requires a.accounts == b.accounts
    ensures AcceptedPrefix(a, legs) == AcceptedPrefix(b, legs)
  {
    if legs != [] {
      SamePrefix(a, b, legs[1..]);
    }
  }

  lemma SaveLast(ledger: seq<LedgerRow>, h: LedgerRow, response: Response)
    requires forall r :: r in ledger ==> r.transactionId != h.transactionId
    ensures SaveResponse(ledger + [h], h.transactionId, response) == ledger + [h.(response := Some(response))]
  {
  }

  /** Inserting succeeds exactly when the bundle is insertable, and then saving its response leaves `Appended`. */
  lemma InsertExactly(db: Db, b: Bundle, response: Response)
    requires IdsBelow(db)
    ensures InsertBundle(db, b).Inserted? <==> Insertable(db, b)
    ensures Insertable(db, b) ==>
              var r := InsertBundle(db, b);
              && r.transactionId == db.nextId
              && r.postingIds == Ids(db.nextId + 1, |b.postings|)
              && r.db.(ledger := SaveResponse(r.db.ledger, r.transactionId, response)) == Appended(db, b, response)
  {
    hide FindRow, AcceptedPrefix, SaveResponse, Sort, PostingRows;
    var postings := Sort(PostingLe, b.postings);
    SortedPostings(b);
    AllAccepted(db, postings);
    if Insertable(db, b) {
      assert postings[..|postings|] == postings;
      SaveLast(db.ledger, HeaderRow(b, db.nextId), response);
    }
  }

  /** A failed insert either touched nothing or left, as its last staged row, a header with no response. */
  lemma ViolatedStage(db: Db, b: Bundle)
    requires InsertBundle(db, b).Violated?
    ensures var staged := InsertBundle(db, b).staged;
            || staged == db
            || (FindRow(db.ledger, b.sourceSystem, b.externalId).None?
                && Replay(staged.ledger, b.sourceSystem, b.externalId) == None)
  {
    var staged := InsertBundle(db, b).staged;
    if staged != db {
      FindAppended(db.ledger, HeaderRow(b, db.nextId), b.sourceSystem, b.externalId);
    }
  }

  lemma {:induction false} FindAppended(ledger: seq<LedgerRow>, r: LedgerRow, sourceSystem: string, externalId: string)
    ensures FindRow(ledger + [r], sourceSystem, externalId) ==
            if FindRow(ledger, sourceSystem, externalId).Some? then FindRow(ledger, sourceSystem, externalId)
            else if HasKey(r, sourceSystem, externalId) then Some(r)
            else None
  {
    if ledger != [] {
      assert (ledger + [r])[1..] == ledger[1..] + [r];
      FindAppended(ledger[1..], r, sourceSystem, externalId);
    }
  }

  // ------------------------------------------------------------------ one transaction's postings

  lemma {:induction false} RowsForAbsent(postings: seq<PostingRow>, id: nat)
    requires forall p :: p in postings ==> p.transactionId != id
    ensures RowsFor(postings, id) == []
  {
    if postings != [] {
      RowsForAbsent(postings[..|postings| - 1], id);
    }
  }

  lemma {:induction false} RowsForOwn(postings: seq<PostingRow>, id: nat)
    requires forall p :: p in postings ==> p.transactionId == id
    ensures RowsFor(postings, id) == postings
  {
    if postings != [] {
      var n := |postings| - 1;
      RowsForOwn(postings[..n], id);
      assert postings == postings[..n] + [postings[n]];
    }
  }

  lemma {:induction false} RowsForConcat(a: seq<PostingRow>, b: seq<PostingRow>, id: nat)
    ensures RowsFor(a + b, id) == RowsFor(a, id) + RowsFor(b, id)
  {
    if b == [] {
      assert a + b == a;
    } else {
      assert (a + b)[..|a + b| - 1] == a + b[..|b| - 1];
      RowsForConcat(a, b[..|b| - 1], id);
    }
  }

  lemma RowsBelong(postings: seq<Posting>, id: nat, first: nat)
    ensures forall p :: p in PostingRows(postings, id, first) ==> p.transactionId == id
    ensures PostingIds(PostingRows(postings, id, first)) == Ids(first, |postings|)
  {
  }

  /** The appended transaction holds exactly the bundle's legs; every other one keeps its own rows. */
  lemma AppendedRows(db: Db, b: Bundle, response: Response, id: nat)
    requires IdsBelow(db)
    ensures RowsFor(Appended(db, b, response).postings, id) ==
            if id == db.nextId then LegsOf(b, id) else RowsFor(db.postings, id)
    ensures PostingIds(LegsOf(b, db.nextId)) == Ids(db.nextId + 1, |b.postings|)
  {
    hide RowsFor, PostingRows, Sort, PostingIds, Ids;
    var rows := LegsOf(b, db.nextId);
    SortedPostings(b);
    RowsBelong(Sort(PostingLe, b.postings), db.nextId, db.nextId + 1);
    RowsForConcat(db.postings, rows, id);
    if id == db.nextId {
      RowsForAbsent(db.postings, id);
      RowsForOwn(rows, id);
    } else {
      RowsForAbsent(rows, id);
    }
  }

  // ------------------------------------------------------------------ balance

  lemma {:induction false} RowsTotal(postings: seq<Posting>, id: nat, first: nat, f: PostingRow -> int, counted: bool)
    requires forall p :: p in PostingRows(postings, id, first) ==> f(p) == if counted then p.amount else 0
    ensures SumBy(f, PostingRows(postings, id, first)) == if counted then SumBy(Units, postings) else 0
  {
    if postings != [] {
      var rows := PostingRows(postings, id, first);
      assert rows[1..] == PostingRows(postings[1..], id, first + 1);
      assert rows[0] in rows;
      RowsTotal(postings[1..], id, first + 1, f, counted);
    }
  }

  /** Appending a balanced bundle adds nothing to any day's total. */
  lemma AppendKeepsTotal(db: Db, b: Bundle, response: Response, asOf: Day)
    requires IdsBelow(db) && IsBalanced(b.postings)
    ensures PostedTotal(Appended(db, b, response), asOf) == PostedTotal(db, asOf)
  {
    SortedPostings(b);
    hide Sort;
    var next := Appended(db, b, response);
    var postings := Sort(PostingLe, b.postings);
    var id := db.nextId;
    var rows := PostingRows(postings, id, id + 1);
    var before, after := PostedAmount(db.ledger, asOf), PostedAmount(next.ledger, asOf);
    var row := next.ledger[|db.ledger|];
    forall p | p in db.postings
      ensures before(p) == after(p)
    {
      assert p.transactionId != row.transactionId;
    }
    SumByAgree(before, after, db.postings);
    var counted := NotAfter(b.date.day, asOf);
    forall p | p in rows
      ensures after(p) == if counted then p.amount else 0
    {
      assert p.transactionId == row.transactionId && row in next.ledger;
    }
    RowsTotal(postings, id, id + 1, after, counted);
    SumByPermutation(Units, postings, b.postings);
    SumByConcat(after, db.postings, rows);
  }

  // ------------------------------------------------------------------ committing keeps the ledger invariant

  lemma FreeKey(ledger: seq<LedgerRow>, b: Bundle)
    requires FindRow(ledger, b.sourceSystem, b.externalId).None?
    ensures forall r :: r in ledger ==> !HasKey(r, b.sourceSystem, b.externalId)
  {
  }

  lemma AppendKeepsKeys(db: Db, b: Bundle, response: Response)
    requires LedgerKeysUnique(db.ledger) && IdsBelow(db) && Insertable(db, b)
    ensures LedgerKeysUnique(Appended(db, b, response).ledger)
  {
    hide Sort, PostingRows;
    FreeKey(db.ledger, b);
  }

  lemma NewRowsAccepted(db: Db, b: Bundle)
    requires Insertable(db, b)
    ensures forall p :: p in PostingRows(Sort(PostingLe, b.postings), db.nextId, db.nextId + 1) ==>
              && p.postingId < db.nextId + 1 + |Sort(PostingLe, b.postings)| && p.transactionId == db.nextId
              && p.accountId in db.accounts && p.currency == "USD"
  {
    SortedPostings(b);
    var postings := Sort(PostingLe, b.postings);
    forall i | 0 <= i < |postings|
      ensures Acceptable(db, postings[i])
    {
      assert postings[i] in b.postings;
    }
  }

  lemma AppendKeepsOwnership(db: Db, b: Bundle, response: Response)
    requires IdsBelow(db) && PostingsOwned(db) && Insertable(db, b)
    ensures IdsBelow(Appended(db, b, response)) && PostingsOwned(Appended(db, b, response))
  {
    var next := Appended(db, b, response);
    NewRowsAccepted(db, b);
    hide Sort, PostingRows, Insertable;
    var row := next.ledger[|db.ledger|];
    assert row in next.ledger && row.transactionId == db.nextId;
    assert forall r :: r in next.ledger <==> r in db.ledger || r == row;
  }

  /** Whatever response names the new row and its fresh postings, committing a balanced insertable bundle keeps
    the ledger invariant. */
  lemma AppendKeepsLedger(db: Db, b: Bundle, response: Response)
    requires LedgerInv(db) && Insertable(db, b) && IsBalanced(b.postings)
    requires response.status == Committed && response.body.CommittedBody?
    requires response.body.transactionId == db.nextId && response.body.postingIds == Ids(db.nextId + 1, |b.postings|)
    requires response.outputHash == Digest(response.body)
    ensures LedgerInv(Appended(db, b, response))
  {
    var next := Appended(db, b, response);
    AppendKeepsKeys(db, b, response);
    AppendKeepsOwnership(db, b, response);
    hide LedgerKeysUnique, IdsBelow, PostingsOwned, Insertable, Sort, PostingRows, RowsFor, PostedTotal;
    forall r | r in next.ledger
      ensures Complete(next.postings, r)
    {
      AppendedRows(db, b, response, r.transactionId);
    }
    forall asOf: Day
      ensures PostedTotal(next, asOf) == 0
    {
      AppendKeepsTotal(db, b, response, asOf);
    }
  }

  // ------------------------------------------------------------------ trial balance

  function BalanceOn(db: Db, asOf: Day): string -> int {
    (accountId: string) => Balance(db, accountId, asOf)
  }

  function AccountOf(p: PostingRow): string {
    p.accountId
  }

  /** The balances of all accounts sum to zero on every day. */
  lemma TrialBalance(db: Db, names: seq<string>, asOf: Day)
    requires LedgerInv(db) && multiset(names) == multiset(db.accounts)
    ensures SumBy(BalanceOn(db, asOf), names) == 0
  {
    forall p | p in db.postings
      ensures multiset(names)[p.accountId] == 1
    {
      assert p.accountId in db.accounts;
    }
    SumByKey(AccountOf, PostedAmount(db.ledger, asOf), db.postings, names);
    forall name | name in names
      ensures BalanceOn(db, asOf)(name) == TotalAt(AccountOf, PostedAmount(db.ledger, asOf), db.postings)(name)
    {
      SumByAgree(PostedTo(db.ledger, name, asOf), Keyed(AccountOf, PostedAmount(db.ledger, asOf), name), db.postings);
    }
    SumByAgree(BalanceOn(db, asOf), TotalAt(AccountOf, PostedAmount(db.ledger, asOf), db.postings), names);
    assert PostedTotal(db, asOf) == 0;
  }
}
