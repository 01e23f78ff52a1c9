/** The accounts table: its keys, the foreign key to the parent account, and the triggers that refuse cycles
  (migrations/0001_ledger_core.sql). */
module Accounts {
  import opened Wrappers
  import opened Hierarchy

  datatype Json = Flag(on: bool) | Other(text: string)

  type Metadata = map<string, Json>

  /** A metadata column: the canonical text of some fields, or any other text with the fields it parses to, if any. */
  datatype Stored = Canonical(fields: Metadata) | Text(text: string, parsed: Option<Metadata>)

  datatype Account = Account(
    accountId: string, code: string, name: string, accountType: string, parent: Option<string>, metadata: Stored)

  datatype AccountError = CycleDetected | ConstraintFailed

  predicate UniqueIds(rows: seq<Account>) {
    forall i, j :: 0 <= i < j < |rows| ==> rows[i].accountId != rows[j].accountId
  }

  predicate UniqueCodes(rows: seq<Account>) {
    forall i, j :: 0 <= i < j < |rows| ==> rows[i].code != rows[j].code
  }

  predicate HasId(rows: seq<Account>, id: string) {
    exists i :: 0 <= i < |rows| && rows[i].accountId == id
  }

  predicate HasCode(rows: seq<Account>, code: string) {
    exists i :: 0 <= i < |rows| && rows[i].code == code
  }

  /** The parent links of the table. */
  function ParentsOf(rows: seq<Account>): Parents {
    if rows == [] then map[]
    else
      var last := rows[|rows| - 1];
      ParentsOf(rows[..|rows| - 1])[last.accountId := last.parent]
  }

  lemma {:induction false} ParentsListed(rows: seq<Account>, id: string)
    ensures id in ParentsOf(rows) <==> HasId(rows, id)
  {
    if rows != [] {
      var n := |rows| - 1;
      ParentsListed(rows[..n], id);
      if i :| 0 <= i < |rows| && rows[i].accountId == id {
        assert i < n ==> rows[..n][i].accountId == id;
      }
    }
  }

  lemma {:induction false} ParentAt(rows: seq<Account>, i: nat)
    requires UniqueIds(rows) && i < |rows|
    ensures rows[i].accountId in ParentsOf(rows) && ParentsOf(rows)[rows[i].accountId] == rows[i].parent
  {
    var n := |rows| - 1;
    if i < n {
      ParentAt(rows[..n], i);
    }
  }

  // ------------------------------------------------------------------ writes

  /** INSERT, with its trigger, keys and foreign key. */
  function Inserted(rows: seq<Account>, a: Account): Result<seq<Account>, AccountError> {
    if a.parent.Some? && Aborts(ParentsOf(rows), a.accountId, a.parent.value) then Err(CycleDetected)
    else if HasId(rows, a.accountId) || HasCode(rows, a.code) then Err(ConstraintFailed)
    else if a.parent.Some? && !HasId(rows, a.parent.value) then Err(ConstraintFailed)
    else Ok(rows + [a])
  }

  function Replaced(rows: seq<Account>, id: string, name: string, parent: Option<string>,
                    metadata: Stored): seq<Account> {
    if rows == [] then []
    else
      var last := rows[|rows| - 1];
      Replaced(rows[..|rows| - 1], id, name, parent, metadata)
        + [if last.accountId == id then last.(name := name, parent := parent, metadata := metadata) else last]
  }

  /** UPDATE of name, parent and metadata by id: fires the trigger for the row, checks the foreign key, and touches
    nothing when no row has the id. */
  function Updated(rows: seq<Account>, id: string, name: string, parent: Option<string>, metadata: Stored)
    : Result<seq<Account>, AccountError>
  {
    if !HasId(rows, id) then Ok(rows)
    else if parent.Some? && Aborts(ParentsOf(rows), id, parent.value) then Err(CycleDetected)
    else if parent.Some? && !HasId(rows, parent.value) then Err(ConstraintFailed)
    else Ok(Replaced(rows, id, name, parent, metadata))
  }

  /** What every reachable accounts table satisfies. */
  ghost predicate TableInv(rows: seq<Account>) {
    && UniqueIds(rows)
    && UniqueCodes(rows)
    && !HasId(rows, "")
    && Closed(ParentsOf(rows))
    && Acyclic(ParentsOf(rows))
  }

  /** Each trigger aborts exactly when the new parent link would close a cycle, a self-parent included. */
  lemma TriggersExact(rows: seq<Account>, a: Account, id: string, name: string, parent: Option<string>,
                      metadata: Stored)
    requires TableInv(rows)
    ensures Inserted(rows, a) == Err(CycleDetected) <==>
            a.parent.Some? && !Acyclic(ParentsOf(rows)[a.accountId := a.parent])
    ensures Updated(rows, id, name, parent, metadata) == Err(CycleDetected) <==>
            HasId(rows, id) && parent.Some? && !Acyclic(ParentsOf(rows)[id := parent])
  {
    hide Acyclic, Aborts;
    if a.parent.Some? {
      AbortsExactly(ParentsOf(rows), a.accountId, a.parent.value);
    }
    if parent.Some? {
      AbortsExactly(ParentsOf(rows), id, parent.value);
    }
  }

  lemma {:induction false} ReplacedAt(rows: seq<Account>, id: string, name: string, parent: Option<string>,
                                      metadata: Stored)
    ensures |Replaced(rows, id, name, parent, metadata)| == |rows|
    ensures forall k :: 0 <= k < |rows| ==>
              Replaced(rows, id, name, parent, metadata)[k] ==
              if rows[k].accountId == id then rows[k].(name := name, parent := parent, metadata := metadata)
              else rows[k]
  {
    if rows != [] {
      ReplacedAt(rows[..|rows| - 1], id, name, parent, metadata);
    }
  }

  /** An update keeps every id and code. */
  lemma ReplacedKeys(rows: seq<Account>, id: string, name: string, parent: Option<string>, metadata: Stored, x: string)
    ensures HasId(Replaced(rows, id, name, parent, metadata), x) <==> HasId(rows, x)
  {
    var after := Replaced(rows, id, name, parent, metadata);
    ReplacedAt(rows, id, name, parent, metadata);
    if i :| 0 <= i < |rows| && rows[i].accountId == x {
      assert after[i].accountId == x;
    }
    if i :| 0 <= i < |after| && after[i].accountId == x {
      assert rows[i].accountId == x;
    }
  }

  lemma ReplacedParents(rows: seq<Account>, id: string, name: string, parent: Option<string>, metadata: Stored)
    requires HasId(rows, id) && UniqueIds(rows)
    ensures ParentsOf(Replaced(rows, id, name, parent, metadata)) == ParentsOf(rows)[id := parent]
  {
    var after := Replaced(rows, id, name, parent, metadata);
    ReplacedAt(rows, id, name, parent, metadata);
    assert UniqueIds(after);
    hide Replaced, ParentsOf, UniqueIds;
    forall x ensures x in ParentsOf(after) <==> x in ParentsOf(rows)[id := parent] {
      ReplacedKeys(rows, id, name, parent, metadata, x);
      ParentsListed(rows, x);
      ParentsListed(after, x);
    }
    forall x | x in ParentsOf(after) ensures ParentsOf(after)[x] == ParentsOf(rows)[id := parent][x] {
      ParentsListed(after, x);
      var i :| 0 <= i < |after| && after[i].accountId == x;
      ParentAt(after, i);
      ParentAt(rows, i);
    }
  }

  lemma InsertedKeys(rows: seq<Account>, a: Account)
    requires !HasId(rows, a.accountId) && !HasCode(rows, a.code)
    ensures UniqueIds(rows) ==> UniqueIds(rows + [a])
    ensures UniqueCodes(rows) ==> UniqueCodes(rows + [a])
    ensures a.accountId != "" && !HasId(rows, "") ==> !HasId(rows + [a], "")
  {
  }

  lemma InsertKeepsTable(rows: seq<Account>, a: Account)
    requires TableInv(rows) && a.accountId != "" && Inserted(rows, a).Ok?
    ensures TableInv(rows + [a])
  {
    hide Acyclic, Aborts, Closed, HasId, HasCode, UniqueIds, UniqueCodes;
    InsertedKeys(rows, a);
    assert (rows + [a])[..|rows|] == rows;
    if a.parent.Some? {
      ParentsListed(rows, a.parent.value);
    }
    LinkKeepsForest(ParentsOf(rows), a.accountId, a.parent);
  }

  lemma UpdateKeepsTable(rows: seq<Account>, id: string, name: string, parent: Option<string>, metadata: Stored)
    requires TableInv(rows) && Updated(rows, id, name, parent, metadata).Ok?
    ensures TableInv(Updated(rows, id, name, parent, metadata).value)
  {
    hide Acyclic, Aborts, Closed, HasId, ParentsOf;
    if HasId(rows, id) {
      ReplacedAt(rows, id, name, parent, metadata);
      ReplacedKeys(rows, id, name, parent, metadata, "");
      ReplacedParents(rows, id, name, parent, metadata);
      if parent.Some? {
        ParentsListed(rows, parent.value);
      }
      LinkKeepsForest(ParentsOf(rows), id, parent);
    }
  }

  /** On a reachable table an insert succeeds exactly when its id and code are new and its parent, if any, exists: a new
    account can never close a cycle. */
  lemma InsertAcceptedExactly(rows: seq<Account>, a: Account)
    requires TableInv(rows)
    ensures Inserted(rows, a).Ok? <==>
            !HasId(rows, a.accountId) && !HasCode(rows, a.code) && (a.parent.Some? ==> HasId(rows, a.parent.value))
    ensures Inserted(rows, a).Ok? ==> Inserted(rows, a).value == rows + [a]
  {
    hide Acyclic, Climb, HasId, HasCode;
    if a.parent.Some? && !HasId(rows, a.accountId)
        && a.accountId in Climb(ParentsOf(rows), a.parent.value, ParentsOf(rows).Keys) {
      ClimbReaches(ParentsOf(rows), a.parent.value, ParentsOf(rows).Keys, a.accountId);
      ParentsListed(rows, a.accountId);
    }
  }

  /** An update succeeds exactly when it touches no row, or its new parent, if any, exists and closes no cycle. */
  lemma UpdateAcceptedExactly(rows: seq<Account>, id: string, name: string, parent: Option<string>, metadata: Stored)
    requires TableInv(rows)
    ensures Updated(rows, id, name, parent, metadata).Ok? <==>
            !HasId(rows, id) || parent.None? || (HasId(rows, parent.value) && Acyclic(ParentsOf(rows)[id := parent]))
    ensures Updated(rows, id, name, parent, metadata).Ok? ==>
              var after := Updated(rows, id, name, parent, metadata).value;
              && |after| == |rows|
              && forall k :: 0 <= k < |rows| ==>
                   after[k] == if rows[k].accountId != id then rows[k]
                               else rows[k].(name := name, parent := parent, metadata := metadata)
  {
    hide Acyclic, Aborts;
    ReplacedAt(rows, id, name, parent, metadata);
    if parent.Some? {
      AbortsExactly(ParentsOf(rows), id, parent.value);
    }
  }

  // ------------------------------------------------------------------ runs

  /** One write to the table; the id of a new account is generated or validated to be non-empty. */
  datatype Write =
    | Insert(account: Account)
    | Update(id: string, name: string, parent: Option<string>, metadata: Stored)

  function Outcome(rows: seq<Account>, w: Write): Result<seq<Account>, AccountError> {
    match w
    case Insert(a) => Inserted(rows, a)
    case Update(id, name, parent, metadata) => Updated(rows, id, name, parent, metadata)
  }

  /** A refused write changes nothing. */
  function After(rows: seq<Account>, w: Write): seq<Account> {
    match Outcome(rows, w) case Ok(after) => after case Err(_) => rows
  }

  function Written(rows: seq<Account>, writes: seq<Write>): seq<Account> {
    if writes == [] then rows else After(Written(rows, writes[..|writes| - 1]), writes[|writes| - 1])
  }

  /** From the empty table, whatever is written and whatever is refused, the account graph has no cycle, every parent
    exists, and ids and codes are unique. */
  lemma {:induction false} TablesStayForests(writes: seq<Write>)
    requires forall w :: w in writes && w.Insert? ==> w.account.accountId != ""
    ensures TableInv(Written([], writes))
  {
    if writes == [] {
      forall id, n: nat | n > 0 ensures Up(map[], id, n) != Some(id) {
      }
    } else {
      var n := |writes| - 1;
      TablesStayForests(writes[..n]);
      var rows := Written([], writes[..n]);
      match writes[n] {
        case Insert(a) =>
          if Inserted(rows, a).Ok? {
            InsertKeepsTable(rows, a);
          }
        case Update(id, name, parent, metadata) =>
          if Updated(rows, id, name, parent, metadata).Ok? {
            UpdateKeepsTable(rows, id, name, parent, metadata);
          }
      }
    }
  }
}
