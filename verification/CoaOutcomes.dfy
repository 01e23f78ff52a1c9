/** When an import succeeds: exactly, from the file and the table it starts with, and two files that show why a dry run
  cannot tell (src/capital_os/db/coa_importer.py, migrations/0001_ledger_core.sql). */
module CoaOutcomes {
  import opened Wrappers
  import opened Ordering
  import opened Hierarchy
  import opened Accounts
  import opened CycleCheck
  import opened CoaFiles
  import opened CoaImport

  // ------------------------------------------------------------------ when an apply succeeds

  /** The id exists before the i-th account is processed: it was in the table, or the file lists it earlier. */
  predicate Known(file: CoaFile, start: seq<Account>, i: nat, id: string)
    requires i <= |file.accounts|
  {
    HasId(start, id) || exists j :: 0 <= j < i && file.accounts[j].accountId == id
  }

  /** The parent links before the i-th account: earlier accounts as decided, all others as in the table. */
  function LinksBefore(file: CoaFile, start: seq<Account>, i: nat): Parents
    requires i <= |file.accounts|
    decreases i
  {
    if i == 0 then ParentsOf(start)
    else
      var before := LinksBefore(file, start, i - 1);
      match Decision(file, start, i - 1)
      case Create(account) => before[file.accounts[i - 1].accountId := account.parent]
      case Leave => before
      case Change(_, parent, _) => before[file.accounts[i - 1].accountId := parent]
  }

  /** The i-th account's write will be accepted, as the file and the starting table alone say: a new account's code is
    free and its parent known; a changed parent is known and closes no cycle with the links so far. */
  ghost predicate WriteAllowed(file: CoaFile, start: seq<Account>, i: nat)
    requires i < |file.accounts|
  {
    match Decision(file, start, i)
    case Create(account) =>
      !HasCode(start, account.code) && (account.parent.Some? ==> Known(file, start, i, account.parent.value))
    case Leave => true
    case Change(_, parent, _) =>
      parent.Some? ==>
        Known(file, start, i, parent.value)
            && Acyclic(LinksBefore(file, start, i)[file.accounts[i].accountId := parent])
  }

  lemma {:induction false} LinksKnown(file: CoaFile, start: seq<Account>, i: nat, id: string)
    requires i <= |file.accounts|
    ensures id in LinksBefore(file, start, i) <==> Known(file, start, i, id)
    decreases i
  {
    hide FindRow, Revise, Fresh, IdSet;
    if i == 0 {
      ParentsListed(start, id);
    } else {
      LinksKnown(file, start, i - 1, id);
      OneMoreKnown(file, start, i, id);
      LeaveIsKnown(file, start, i - 1);
    }
  }

  lemma OneMoreKnown(file: CoaFile, start: seq<Account>, i: nat, id: string)
    requires 0 < i <= |file.accounts|
    ensures Known(file, start, i, id) <==> Known(file, start, i - 1, id) || file.accounts[i - 1].accountId == id
  {
    if Known(file, start, i - 1, id) && !HasId(start, id) {
      var j :| 0 <= j < i - 1 && file.accounts[j].accountId == id;
    }
  }

  lemma LeaveIsKnown(file: CoaFile, start: seq<Account>, i: nat)
    requires i < |file.accounts|
    ensures !Decision(file, start, i).Create? ==> HasId(start, file.accounts[i].accountId)
  {
    hide FindRow;
    IdSetLists(start, file.accounts[i].accountId);
  }

  lemma CreateIsNew(file: CoaFile, start: seq<Account>, i: nat)
    requires i < |file.accounts| && Distinct(FileIds(file.accounts)) && Decision(file, start, i).Create?
    ensures !Known(file, start, i, file.accounts[i].accountId)
    ensures Decision(file, start, i).account == Fresh(file, file.accounts[i])
  {
    hide FindRow;
    IdSetLists(start, file.accounts[i].accountId);
    forall j | 0 <= j < i ensures file.accounts[j].accountId != file.accounts[i].accountId {
      IdsDiffer(file, j, i);
    }
  }

  /** What a table looks like to the writes still to come: its invariant, its links and its codes. */
  ghost predicate Reached(file: CoaFile, start: seq<Account>, i: nat, rows: seq<Account>)
    requires i <= |file.accounts|
  {
    && TableInv(rows)
    && ParentsOf(rows) == LinksBefore(file, start, i)
    && (forall code :: HasCode(start, code) ==> HasCode(rows, code))
    && (forall code :: HasCode(rows, code) ==>
          HasCode(start, code) || exists j :: 0 <= j < i && file.accounts[j].accountId == code)
  }

  lemma CreatesExactly(file: CoaFile, start: seq<Account>, i: nat, rows: seq<Account>, account: Account)
    requires i < |file.accounts| && Distinct(FileIds(file.accounts)) && file.accounts[i].accountId != ""
    requires Reached(file, start, i, rows) && Decision(file, start, i) == Create(account)
    ensures Inserted(rows, account).Ok? <==> WriteAllowed(file, start, i)
    ensures Inserted(rows, account).Ok? ==> Reached(file, start, i + 1, Inserted(rows, account).value)
  {
    hide TableInv, Decision, Fresh, Inserted, HasId, HasCode, Known, BuildMetadata;
    var a := file.accounts[i];
    CreateIsNew(file, start, i);
    FreshFields(file, a);
    InsertAcceptedExactly(rows, account);
    LinksKnown(file, start, i, a.accountId);
    ParentsListed(rows, a.accountId);
    if account.parent.Some? {
      LinksKnown(file, start, i, account.parent.value);
      ParentsListed(rows, account.parent.value);
    }
    forall j | 0 <= j < i ensures file.accounts[j].accountId != a.accountId {
      IdsDiffer(file, j, i);
    }
    if Inserted(rows, account).Ok? {
      InsertedRows(rows, account);
      InsertKeepsTable(rows, account);
      assert (rows + [account])[..|rows|] == rows;
      CodesAppended(rows, account);
    }
  }

  lemma FreshFields(file: CoaFile, a: CoaAccount)
    ensures Fresh(file, a).accountId == a.accountId && Fresh(file, a).code == a.accountId
    ensures Fresh(file, a).parent == a.parent
  {
  }

  lemma CodesAppended(rows: seq<Account>, account: Account)
    ensures forall code :: HasCode(rows + [account], code) <==> HasCode(rows, code) || code == account.code
  {
    var after := rows + [account];
    forall code ensures HasCode(after, code) <==> HasCode(rows, code) || code == account.code {
      if i :| 0 <= i < |rows| && rows[i].code == code {
        assert after[i].code == code;
      }
      assert after[|rows|].code == account.code;
    }
  }

  lemma CodesReplaced(rows: seq<Account>, id: string, name: string, parent: Option<string>, metadata: Stored)
    ensures forall code :: HasCode(Replaced(rows, id, name, parent, metadata), code) <==> HasCode(rows, code)
  {
    var after := Replaced(rows, id, name, parent, metadata);
    ReplacedAt(rows, id, name, parent, metadata);
    forall code ensures HasCode(after, code) <==> HasCode(rows, code) {
      if i :| 0 <= i < |rows| && rows[i].code == code {
        assert after[i].code == code;
      }
      if i :| 0 <= i < |after| && after[i].code == code {
        assert rows[i].code == code;
      }
    }
  }

  lemma ChangesExactly(file: CoaFile, start: seq<Account>, i: nat, rows: seq<Account>, name: string,
                       parent: Option<string>, metadata: Stored)
    requires i < |file.accounts| && Reached(file, start, i, rows)
    requires Decision(file, start, i) == Change(name, parent, metadata)
    ensures Updated(rows, file.accounts[i].accountId, name, parent, metadata).Ok? <==> WriteAllowed(file, start, i)
    ensures Updated(rows, file.accounts[i].accountId, name, parent, metadata).Ok? ==>
              Reached(file, start, i + 1, Updated(rows, file.accounts[i].accountId, name, parent, metadata).value)
  {
    hide TableInv, Decision, HasId, HasCode, Known, Acyclic, Aborts, Replaced;
    var id := file.accounts[i].accountId;
    LeaveIsKnown(file, start, i);
    StartIsKnown(file, start, i, id);
    LinksKnown(file, start, i, id);
    ParentsListed(rows, id);
    UpdateAcceptedExactly(rows, id, name, parent, metadata);
    if parent.Some? {
      LinksKnown(file, start, i, parent.value);
      ParentsListed(rows, parent.value);
    }
    if Updated(rows, id, name, parent, metadata).Ok? {
      UpdateKeepsTable(rows, id, name, parent, metadata);
      TableIds(rows);
      ReplacedParents(rows, id, name, parent, metadata);
      CodesReplaced(rows, id, name, parent, metadata);
    }
  }

  lemma StartIsKnown(file: CoaFile, start: seq<Account>, i: nat, id: string)
    requires i <= |file.accounts| && HasId(start, id)
    ensures Known(file, start, i, id)
  {
  }

  lemma TableIds(rows: seq<Account>)
    requires TableInv(rows)
    ensures UniqueIds(rows)
  {
  }

  predicate FileReady(file: CoaFile) {
    Distinct(FileIds(file.accounts)) && forall a :: a in file.accounts ==> a.accountId != ""
  }

  lemma StepExactly(file: CoaFile, start: seq<Account>, i: nat, rows: seq<Account>)
    requires i < |file.accounts| && FileReady(file) && Reached(file, start, i, rows)
    ensures Perform(rows, file.accounts[i], Decision(file, start, i)).Ok? <==> WriteAllowed(file, start, i)
    ensures Perform(rows, file.accounts[i], Decision(file, start, i)).Ok? ==>
              Reached(file, start, i + 1, Perform(rows, file.accounts[i], Decision(file, start, i)).value)
  {
    hide TableInv, Decision, Inserted, Updated, Distinct, ParentsOf;
    assert file.accounts[i] in file.accounts;
    match Decision(file, start, i) {
      case Create(account) => CreatesExactly(file, start, i, rows, account);
      case Leave =>
      case Change(name, parent, metadata) => ChangesExactly(file, start, i, rows, name, parent, metadata);
    }
  }

  /** On any reachable table an apply succeeds exactly when each account's write is allowed, as the file and the
    starting table alone say. */
  lemma {:induction false} ImportSucceedsExactly(file: CoaFile, start: seq<Account>, k: nat)
    requires k <= |file.accounts| && FileReady(file) && TableInv(start)
    ensures Import(file, start, k, false).Ok? <==> forall i :: 0 <= i < k ==> WriteAllowed(file, start, i)
    ensures Import(file, start, k, false).Ok? ==> Reached(file, start, k, Import(file, start, k, false).value.rows)
    decreases k
  {
    hide TableInv, Decision, Perform, WriteAllowed, Distinct, Reached, Import, RowAfter, Decide;
    if k == 0 {
      FirstStep(file, start, false);
      ReachedAtFirst(file, start);
    } else {
      ImportSucceedsExactly(file, start, k - 1);
      TableIds(start);
      var earlier := Import(file, start, k - 1, false);
      if earlier.Ok? {
        var rows := earlier.value.rows;
        StepExactly(file, start, k - 1, rows);
        ImportIsPointwise(file, start, k - 1, k - 1);
        RowInTurn(file, start, rows, k - 1);
        NextStep(file, start, k - 1, false, earlier.value);
      } else {
        ImportStops(file, start, k - 1, k, false);
      }
    }
  }

  lemma ReachedAtFirst(file: CoaFile, start: seq<Account>)
    requires TableInv(start)
    ensures Reached(file, start, 0, start)
  {
    hide TableInv;
  }

  // ------------------------------------------------------------------ what a dry run cannot tell

  /** In the file order: every parent is created before its children. */
  predicate ParentsFirst(file: CoaFile, k: nat)
    requires k <= |file.accounts|
  {
    forall i :: 0 <= i < k && file.accounts[i].parent.Some? ==>
      exists j :: 0 <= j < i && file.accounts[j].accountId == file.accounts[i].parent.value
  }

  /** Into an empty table, an apply succeeds exactly when the file lists every parent before its children; a dry run
    reports every account as created either way. */
  lemma {:induction false} EmptyImportExactly(file: CoaFile, k: nat)
    requires k <= |file.accounts| && Distinct(FileIds(file.accounts))
    ensures Import(file, [], k, false).Ok? <==> ParentsFirst(file, k)
    ensures Import(file, [], k, true) == Ok(Progress([], Summary(k, 0, 0)))
    ensures ParentsFirst(file, k) ==> Import(file, [], k, false).value.rows == FreshRows(file, k)
    decreases k
  {
    if k > 0 {
      hide Inserted, Fresh;
      EmptyImportExactly(file, k - 1);
      assert IdSet([]) == {};
      if ParentsFirst(file, k - 1) {
        FreshInserted(file, k - 1);
      }
    }
  }

  function FreshRows(file: CoaFile, k: nat): seq<Account>
    requires k <= |file.accounts|
  {
    if k == 0 then [] else FreshRows(file, k - 1) + [Fresh(file, file.accounts[k - 1])]
  }

  lemma {:induction false} FreshRowsAt(file: CoaFile, k: nat)
    requires k <= |file.accounts|
    ensures |FreshRows(file, k)| == k
    ensures forall i :: 0 <= i < k ==> FreshRows(file, k)[i] == Fresh(file, file.accounts[i])
  {
    if k > 0 {
      FreshRowsAt(file, k - 1);
    }
  }

  lemma FreshInserted(file: CoaFile, k: nat)
    requires k < |file.accounts| && Distinct(FileIds(file.accounts)) && ParentsFirst(file, k)
    ensures Inserted(FreshRows(file, k), Fresh(file, file.accounts[k])).Ok? <==> ParentsFirst(file, k + 1)
    ensures Inserted(FreshRows(file, k), Fresh(file, file.accounts[k])).Ok? ==>
              Inserted(FreshRows(file, k), Fresh(file, file.accounts[k])).value == FreshRows(file, k + 1)
  {
    var rows, a := FreshRows(file, k), Fresh(file, file.accounts[k]);
    FreshKeys(file, k);
    hide FreshRows, Climb, HasId, HasCode, ParentsOf, BuildMetadata;
    if a.parent.Some? {
      var p := a.parent.value;
      FreshListed(file, k, p);
      if a.accountId in Climb(ParentsOf(rows), p, ParentsOf(rows).Keys) {
        ClimbReaches(ParentsOf(rows), p, ParentsOf(rows).Keys, a.accountId);
        ParentsListed(rows, a.accountId);
      }
    }
  }

  lemma FreshKeys(file: CoaFile, k: nat)
    requires k < |file.accounts| && Distinct(FileIds(file.accounts))
    ensures !HasId(FreshRows(file, k), file.accounts[k].accountId)
    ensures !HasCode(FreshRows(file, k), file.accounts[k].accountId)
  {
    FreshRowsAt(file, k);
    forall i | 0 <= i < k ensures file.accounts[i].accountId != file.accounts[k].accountId {
      IdsDiffer(file, i, k);
    }
  }

  lemma FreshListed(file: CoaFile, k: nat, id: string)
    requires k <= |file.accounts|
    ensures HasId(FreshRows(file, k), id) <==> exists j :: 0 <= j < k && file.accounts[j].accountId == id
  {
    var rows := FreshRows(file, k);
    FreshRowsAt(file, k);
    if i :| 0 <= i < |rows| && rows[i].accountId == id {
      assert file.accounts[i].accountId == id;
    }
    if j :| 0 <= j < k && file.accounts[j].accountId == id {
      assert rows[j].accountId == id;
    }
  }

  // --------------------------------------------------------------- two files a dry run accepts and an apply does not

  function Plain(id: string, parent: Option<string>): CoaAccount {
    CoaAccount(id, id, "ASSET", parent, None, None, None, None, None, None)
  }

  function PlainFile(first: CoaAccount, second: CoaAccount): CoaFile {
    CoaFile([first, second], None, Upsert, AllowUpdates(true, true, true, true, true))
  }

  /** A child listed before its parent. */
  const BACKWARDS := PlainFile(Plain("child", Some("parent")), Plain("parent", None))

  /** A table where the same two accounts hang the other way round. */
  const SWAPPED := [
    Account("child", "child", "child", "asset", None, Canonical(map[])),
    Account("parent", "parent", "parent", "asset", Some("child"), Canonical(map[]))]

  lemma BackwardsIsValid()
    ensures ValidAccounts(BACKWARDS.accounts) && FileReady(BACKWARDS)
  {
    var accounts := BACKWARDS.accounts;
    assert FileIds(accounts) == ["child", "parent"];
    var refs := map["child" := "parent"];
    assert accounts[..1] == [accounts[0]] && accounts[..1][..0] == [];
    assert RefsOf([accounts[0]]) == refs;
    assert RefsOf(accounts) == refs;
    assert Links(refs) == map["child" := Some("parent")];
    OneLink("child", "parent");
  }

  lemma OneLink(id: string, parent: string)
    requires id != parent
    ensures Acyclic(map[id := Some(parent)])
  {
    var links := map[id := Some(parent)];
    forall x, n: nat | n > 0 ensures Up(links, x, n) != Some(x) {
      if x == id {
        assert Up(links, x, n) == Up(links, parent, n - 1);
      }
    }
  }

  /** Into an empty table the dry run reports two accounts created and the apply is refused. */
  lemma DryRunAcceptsWhatApplyRefuses()
    ensures ValidAccounts(BACKWARDS.accounts)
    ensures Import(BACKWARDS, [], 2, true) == Ok(Progress([], Summary(2, 0, 0)))
    ensures Import(BACKWARDS, [], 2, false).Err?
  {
    BackwardsIsValid();
    hide Import, Distinct, ValidAccounts;
    EmptyImportExactly(BACKWARDS, 2);
    assert BACKWARDS.accounts[0].parent == Some("parent");
  }

  /** Into the swapped table the file's own graph has no cycle either, but re-parenting in file order would
    close one. */
  lemma DryRunAcceptsAPassingCycle()
    ensures TableInv(SWAPPED) && ValidAccounts(BACKWARDS.accounts)
    ensures Import(BACKWARDS, SWAPPED, 2, true) == Ok(Progress(SWAPPED, Summary(0, 2, 0)))
    ensures Import(BACKWARDS, SWAPPED, 2, false).Err?
  {
    hide Import, Distinct, ValidAccounts, TableInv, ParentsOf, Decision, WriteAllowed, FileReady, Acyclic;
    BackwardsIsValid();
    SwappedLinks();
    SwappedDecisions();
    PassingCycle();
    ImportSucceedsExactly(BACKWARDS, SWAPPED, 2);
    FirstStep(BACKWARDS, SWAPPED, true);
    DryStep(BACKWARDS, SWAPPED, 1, Summary(0, 0, 0));
    DryStep(BACKWARDS, SWAPPED, 2, Summary(0, 1, 0));
  }

  lemma PassingCycle()
    ensures !WriteAllowed(BACKWARDS, SWAPPED, 0)
  {
    SwappedLinks();
    SwappedDecisions();
    hide Decision, ParentsOf, TableInv;
    var links := LinksBefore(BACKWARDS, SWAPPED, 0)["child" := Some("parent")];
    assert Up(links, "child", 2) == Up(links, "parent", 1) == Up(links, "child", 0);
  }

  lemma SwappedLinks()
    ensures TableInv(SWAPPED) && ParentsOf(SWAPPED) == map["child" := None, "parent" := Some("child")]
  {
    assert SWAPPED[..1] == [SWAPPED[0]] && SWAPPED[..1][..0] == [];
    assert ParentsOf([SWAPPED[0]]) == map["child" := None];
    var links: Parents := map["child" := None, "parent" := Some("child")];
    assert ParentsOf(SWAPPED) == links;
    forall x, n: nat | n > 0 ensures Up(links, x, n) != Some(x) {
      if x == "parent" {
        assert Up(links, x, n) == Up(links, "child", n - 1);
      }
    }
  }

  lemma SwappedDecisions()
    ensures Decision(BACKWARDS, SWAPPED, 0).Change? && Decision(BACKWARDS, SWAPPED, 0).parent == Some("parent")
    ensures Decision(BACKWARDS, SWAPPED, 1).Change? && Decision(BACKWARDS, SWAPPED, 1).parent == None
  {
    hide BuildMetadata, Merge;
    assert SWAPPED[0] in SWAPPED && SWAPPED[1] in SWAPPED;
    assert FindRow(SWAPPED, "child") == Some(SWAPPED[0]);
    assert FindRow(SWAPPED[1..], "parent") == Some(SWAPPED[1]);
    assert FindRow(SWAPPED, "parent") == Some(SWAPPED[1]);
  }
}
