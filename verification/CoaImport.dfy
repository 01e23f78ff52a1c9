/** Importing a chart-of-accounts file (src/capital_os/db/coa_importer.py): per account, create it, change it or leave
  it, and count which. */
module CoaImport {
  import opened Wrappers
  import opened Ordering
  import opened Hierarchy
  import opened Accounts
  import opened CoaFiles

  /** What the loop works from. */
  datatype CoaFile = CoaFile(accounts: seq<CoaAccount>, defaultCurrency: Option<string>, mode: Mode,
                             allow: AllowUpdates)

  datatype Summary = Summary(created: nat, updated: nat, untouched: nat)

  /** The counts, and how many accounts the warning about accounts missing from the file speaks of. */
  datatype Report = Report(summary: Summary, missing: Option<nat>)

  datatype ImportError = InvalidFile | InvalidMode | Refused(error: AccountError)

  function FileOf(p: Payload, mode: Mode): CoaFile {
    CoaFile(p.accounts, p.defaultCurrency, mode, p.allow)
  }

  // ------------------------------------------------------------------ metadata

  /** _build_metadata: the explicit fields override the free ones, and every account has an activity flag. */
  function BuildMetadata(a: CoaAccount, defaultCurrency: Option<string>): Metadata {
    var base := if a.metadata.Some? then a.metadata.value else map[];
    var described := if a.description.Some? then base["description" := Other(a.description.value)] else base;
    var flagged :=
      if a.isActive.Some? then described["is_active" := Flag(a.isActive.value)]
      else if "is_active" in described then described
      else described["is_active" := Flag(true)];
    var currency := if a.currency.Some? then a.currency else defaultCurrency;
    var priced :=
      if currency.Some? && currency.value != "" then flagged["currency" := Other(currency.value)] else flagged;
    var referred := if a.externalRefs.Some? then priced["external_refs" := a.externalRefs.value] else priced;
    if a.tags.Some? then referred["tags" := a.tags.value] else referred
  }

  /** Every account gets an activity flag, the file's own if it gives one; explicit fields win over free metadata, an
    own currency over the file's default, and all other metadata passes through. */
  lemma MetadataPrecedence(a: CoaAccount, defaultCurrency: Option<string>, key: string)
    ensures var m, free := BuildMetadata(a, defaultCurrency), if a.metadata.Some? then a.metadata.value else map[];
            var currency := if a.currency.Some? then a.currency else defaultCurrency;
            && "is_active" in m
            && (a.isActive.Some? ==> m["is_active"] == Flag(a.isActive.value))
            && (a.isActive.None? ==> m["is_active"] == if "is_active" in free then free["is_active"] else Flag(true))
            && (a.description.Some? ==> "description" in m && m["description"] == Other(a.description.value))
            && (currency.Some? && currency.value != "" ==> "currency" in m && m["currency"] == Other(currency.value))
            && (a.tags.Some? ==> "tags" in m && m["tags"] == a.tags.value)
            && (a.externalRefs.Some? ==> "external_refs" in m && m["external_refs"] == a.externalRefs.value)
            && (|| key !in {"description", "is_active", "currency", "external_refs", "tags"}
                || (key == "description" && a.description.None?)
                || (key == "currency" && (currency.None? || currency.value == ""))
                || (key == "external_refs" && a.externalRefs.None?)
                || (key == "tags" && a.tags.None?)
                ==> (key in m <==> key in free) && (key in m ==> m[key] == free[key]))
  {
  }

  /** The column as the importer reads it: an empty text stands for no fields. */
  function Current(stored: Stored): Stored {
    if stored.Text? && stored.text == "" then Canonical(map[]) else stored
  }

  function Parsed(stored: Stored): Metadata {
    match stored
    case Canonical(fields) => fields
    case Text(_, None) => map[]
    case Text(_, Some(fields)) => fields
  }

  /** Whether the flags let the file's value for this key through. */
  predicate Allowed(allow: AllowUpdates, key: string) {
    if key == "description" then allow.description
    else if key == "is_active" then allow.isActive
    else allow.metadata
  }

  /** What merging means, key by key. */
  ghost predicate IsMerge(stored: Stored, incoming: Metadata, allow: AllowUpdates, merged: Metadata) {
    forall key ::
      && (key in merged <==> key in Parsed(stored) || (key in incoming && Allowed(allow, key)))
      && (key in merged ==>
            merged[key] == if key in incoming && Allowed(allow, key) then incoming[key] else Parsed(stored)[key])
  }

  function Merge(stored: Stored, incoming: Metadata, allow: AllowUpdates): Metadata {
    var free := if allow.metadata then Parsed(stored) + (incoming - {"description", "is_active"}) else Parsed(stored);
    var described :=
      if allow.description && "description" in incoming then free["description" := incoming["description"]] else free;
    if allow.isActive && "is_active" in incoming then described["is_active" := incoming["is_active"]] else described
  }

  lemma MergeMeaning(stored: Stored, incoming: Metadata, allow: AllowUpdates)
    ensures IsMerge(stored, incoming, allow, Merge(stored, incoming, allow))
  {
  }

  lemma MergeDetermined(stored: Stored, incoming: Metadata, allow: AllowUpdates, a: Metadata, b: Metadata)
    requires IsMerge(stored, incoming, allow, a) && IsMerge(stored, incoming, allow, b)
    ensures a == b
  {
    assert a.Keys == b.Keys;
  }

  /** _merge_metadata, building the result in place. */
  method MergeMetadata(stored: Stored, incoming: Metadata, allow: AllowUpdates) returns (merged: Metadata)
    ensures IsMerge(stored, incoming, allow, merged)
    ensures merged == Merge(stored, incoming, allow)
  {
    hide Merge, Parsed;
    merged := Parsed(stored);
    if allow.metadata {
      var left := incoming.Keys;
      while left != {}
        invariant left <= incoming.Keys
        invariant forall key :: key in merged <==>
                    key in Parsed(stored)
                        || (key in incoming && key !in left && key != "description" && key != "is_active")
        invariant forall key :: key in merged ==>
                    merged[key] == if key in incoming && key !in left && key != "description" && key != "is_active"
                                   then incoming[key] else Parsed(stored)[key]
        decreases left
      {
        var key :| key in left;
        if key != "description" && key != "is_active" {
          merged := merged[key := incoming[key]];
        }
        left := left - {key};
      }
    }
    if allow.description && "description" in incoming {
      merged := merged["description" := incoming["description"]];
    }
    if allow.isActive && "is_active" in incoming {
      merged := merged["is_active" := incoming["is_active"]];
    }
    MergeMeaning(stored, incoming, allow);
    MergeDetermined(stored, incoming, allow, merged, Merge(stored, incoming, allow));
  }

  /** Merging the same file in again changes nothing, nor does merging it into what a fresh account got. */
  lemma MergeIdempotent(stored: Stored, incoming: Metadata, allow: AllowUpdates)
    ensures Merge(Canonical(Merge(stored, incoming, allow)), incoming, allow) == Merge(stored, incoming, allow)
    ensures Merge(Canonical(incoming), incoming, allow) == incoming
  {
    hide Merge;
    var merged := Merge(stored, incoming, allow);
    MergeMeaning(stored, incoming, allow);
    MergeMeaning(Canonical(merged), incoming, allow);
    MergeDetermined(Canonical(merged), incoming, allow, Merge(Canonical(merged), incoming, allow), merged);
    MergeMeaning(Canonical(incoming), incoming, allow);
    MergeDetermined(Canonical(incoming), incoming, allow, Merge(Canonical(incoming), incoming, allow), incoming);
  }

  // ------------------------------------------------------------------ one account

  datatype Action =
    | Create(account: Account)
    | Leave
    | Change(name: string, parent: Option<string>, metadata: Stored)

  /** The type in the table's lower case. */
  function StoredType(accountType: string): string {
    match accountType
    case "ASSET" => "asset"
    case "LIABILITY" => "liability"
    case "EQUITY" => "equity"
    case "INCOME" => "income"
    case "EXPENSE" => "expense"
    case _ => accountType
  }

  function Fresh(file: CoaFile, a: CoaAccount): Account {
    Account(a.accountId, a.accountId, a.name, StoredType(a.accountType), a.parent,
            Canonical(BuildMetadata(a, file.defaultCurrency)))
  }

  function FindRow(rows: seq<Account>, id: string): (row: Option<Account>)
    ensures row.Some? <==> HasId(rows, id)
    ensures row.Some? ==> row.value in rows && row.value.accountId == id
  {
    if rows == [] then None
    else if rows[0].accountId == id then Some(rows[0])
    else
      var rest := FindRow(rows[1..], id);
      assert HasId(rows, id) ==> HasId(rows[1..], id) by {
        if i :| 0 <= i < |rows| && rows[i].accountId == id {
          assert rows[1..][i - 1].accountId == id;
        }
      }
      assert HasId(rows[1..], id) ==> HasId(rows, id) by {
        if i :| 0 <= i < |rows[1..]| && rows[1..][i].accountId == id {
          assert rows[i + 1].accountId == id;
        }
      }
      rest
  }

  /** What the file makes of an existing row. */
  function Revise(file: CoaFile, a: CoaAccount, row: Account): Action {
    var name := if file.allow.name then a.name else row.name;
    var parent := if file.allow.parentId then a.parent else row.parent;
    var metadata := Canonical(Merge(Current(row.metadata), BuildMetadata(a, file.defaultCurrency), file.allow));
    if name == row.name && parent == row.parent && metadata == Current(row.metadata) then Leave
    else Change(name, parent, metadata)
  }

  /** What happens to one account, `before` being the ids that existed when the import began. */
  function Decide(file: CoaFile, before: set<string>, rows: seq<Account>, a: CoaAccount): Action {
    if a.accountId !in before then Create(Fresh(file, a))
    else if file.mode == CreateOnly then Leave
    else
      match FindRow(rows, a.accountId)
      case None => Leave
      case Some(row) => Revise(file, a, row)
  }

  function Tally(s: Summary, action: Action): Summary {
    match action
    case Create(_) => s.(created := s.created + 1)
    case Leave => s.(untouched := s.untouched + 1)
    case Change(_, _, _) => s.(updated := s.updated + 1)
  }

  function Perform(rows: seq<Account>, a: CoaAccount, action: Action): Result<seq<Account>, AccountError> {
    match action
    case Create(account) => Inserted(rows, account)
    case Leave => Ok(rows)
    case Change(name, parent, metadata) => Updated(rows, a.accountId, name, parent, metadata)
  }

  // ------------------------------------------------------------------ the loop

  datatype Progress = Progress(rows: seq<Account>, summary: Summary)

  function IdSet(rows: seq<Account>): set<string> {
    set r | r in rows :: r.accountId
  }

  /** After the first k accounts; a dry run decides but performs nothing. */
  function Import(file: CoaFile, start: seq<Account>, k: nat, dryRun: bool): Result<Progress, AccountError>
    requires k <= |file.accounts|
    decreases k
  {
    if k == 0 then Ok(Progress(start, Summary(0, 0, 0)))
    else
      match Import(file, start, k - 1, dryRun)
      case Err(e) => Err(e)
      case Ok(p) =>
        var a := file.accounts[k - 1];
        var action := Decide(file, IdSet(start), p.rows, a);
        if dryRun then Ok(Progress(p.rows, Tally(p.summary, action)))
        else
          match Perform(p.rows, a, action)
          case Err(e) => Err(e)
          case Ok(rows) => Ok(Progress(rows, Tally(p.summary, action)))
  }

  lemma NextStep(file: CoaFile, start: seq<Account>, k: nat, dryRun: bool, p: Progress)
    requires k < |file.accounts| && Import(file, start, k, dryRun) == Ok(p)
    ensures var a := file.accounts[k];
            var action := Decide(file, IdSet(start), p.rows, a);
            Import(file, start, k + 1, dryRun) ==
            if dryRun then Ok(Progress(p.rows, Tally(p.summary, action)))
            else
              match Perform(p.rows, a, action)
              case Err(e) => Err(e)
              case Ok(rows) => Ok(Progress(rows, Tally(p.summary, action)))
  {
    hide Decide, Perform, IdSet, Tally;
  }

  /** The accounts of the table that the file does not name, counted when deletes are forbidden and there are any. */
  function Missing(p: Payload, start: seq<Account>): Option<nat> {
    var extra := IdSet(start) - set id | id in FileIds(p.accounts);
    if p.forbidDeletes && extra != {} then Some(|extra|) else None
  }

  class AccountStore {
    var rows: seq<Account>

    constructor ()
      ensures rows == []
    {
      rows := [];
    }

    /** import_coa_payload: an invalid file or mode is refused, and the transaction commits whole or leaves no trace. */
    method ImportCoa(p: Payload, dryRun: bool) returns (r: Result<Report, ImportError>)
      modifies this
      ensures if !ValidPayload(p) then r == Err(InvalidFile) && rows == old(rows)
              else if p.mode.None? then r == Err(InvalidMode) && rows == old(rows)
              else
                match Import(FileOf(p, p.mode.value), old(rows), |p.accounts|, dryRun)
                case Err(e) => r == Err(Refused(e)) && rows == old(rows)
                case Ok(done) =>
                  && r == Ok(Report(done.summary, Missing(p, old(rows))))
                  && rows == if dryRun then old(rows) else done.rows
    {
      hide Merge, BuildMetadata, Inserted, Updated, Import, IdSet, Fresh, Current, ValidPayload;
      var valid := Validate(p);
      if !valid {
        return Err(InvalidFile);
      }
      if p.mode.None? {
        return Err(InvalidMode);
      }
      var file := FileOf(p, p.mode.value);
      FirstStep(file, rows, dryRun);
      var before := rows;
      var existing := IdSet(rows);
      var created, updated, untouched := 0, 0, 0;
      for i := 0 to |file.accounts|
        invariant Import(file, before, i, dryRun) == Ok(Progress(rows, Summary(created, updated, untouched)))
      {
        var a := file.accounts[i];
        NextStep(file, before, i, dryRun, Progress(rows, Summary(created, updated, untouched)));
        if a.accountId !in existing {
          created := created + 1;
          if !dryRun {
            var outcome := Inserted(rows, Fresh(file, a));
            if outcome.Err? {
              ImportStops(file, before, i + 1, |file.accounts|, dryRun);
              rows := before;
              return Err(Refused(outcome.error));
            }
            rows := outcome.value;
          }
          continue;
        }
        if file.mode == CreateOnly {
          untouched := untouched + 1;
          continue;
        }
        var found := FindRow(rows, a.accountId);
        if found.None? {
          untouched := untouched + 1;
          continue;
        }
        var row := found.value;
        var current := Current(row.metadata);
        var name := if file.allow.name then a.name else row.name;
        var parent := if file.allow.parentId then a.parent else row.parent;
        var merged := MergeMetadata(current, BuildMetadata(a, file.defaultCurrency), file.allow);
        if name == row.name && parent == row.parent && Canonical(merged) == current {
          untouched := untouched + 1;
          continue;
        }
        updated := updated + 1;
        if !dryRun {
          var outcome := Updated(rows, a.accountId, name, parent, Canonical(merged));
          if outcome.Err? {
            ImportStops(file, before, i + 1, |file.accounts|, dryRun);
            rows := before;
            return Err(Refused(outcome.error));
          }
          rows := outcome.value;
        }
      }
      var missing := None;
      if p.forbidDeletes {
        var extra := existing - set id | id in FileIds(file.accounts);
        if extra != {} {
          missing := Some(|extra|);
        }
      }
      r := Ok(Report(Summary(created, updated, untouched), missing));
      if dryRun {
        rows := before;
      }
    }
  }

  lemma {:induction false} ImportStops(file: CoaFile, start: seq<Account>, k: nat, n: nat, dryRun: bool)
    requires k <= n <= |file.accounts| && Import(file, start, k, dryRun).Err?
    ensures Import(file, start, n, dryRun) == Import(file, start, k, dryRun)
    decreases n
  {
    if k < n {
      ImportStops(file, start, k, n - 1, dryRun);
    }
  }

  // ------------------------------------------------------------------ other accounts' rows

  lemma {:induction false} FindSame(rows: seq<Account>, other: seq<Account>, id: string)
    requires UniqueIds(rows) && UniqueIds(other)
    requires forall r: Account :: r.accountId == id ==> (r in rows <==> r in other)
    ensures FindRow(rows, id) == FindRow(other, id)
  {
    if r :| r in rows && r.accountId == id {
      RowFound(rows, r);
      RowFound(other, r);
    } else {
      assert FindRow(rows, id).None? && FindRow(other, id).None?;
    }
  }

  lemma RowFound(rows: seq<Account>, r: Account)
    requires UniqueIds(rows) && r in rows
    ensures FindRow(rows, r.accountId) == Some(r)
  {
    var i :| 0 <= i < |rows| && rows[i] == r;
    assert HasId(rows, r.accountId);
    var found := FindRow(rows, r.accountId).value;
    var j :| 0 <= j < |rows| && rows[j] == found;
  }

  lemma FoundAppended(rows: seq<Account>, a: Account, id: string)
    requires UniqueIds(rows) && !HasId(rows, a.accountId)
    ensures FindRow(rows + [a], id) == if id == a.accountId then Some(a) else FindRow(rows, id)
  {
    var after := rows + [a];
    forall i | 0 <= i < |rows| ensures rows[i].accountId != a.accountId {
      assert HasId(rows, rows[i].accountId);
    }
    assert UniqueIds(after);
    if id == a.accountId {
      RowFound(after, a);
    } else {
      FindSame(rows, after, id);
    }
  }

  lemma FoundReplaced(rows: seq<Account>, x: string, name: string, parent: Option<string>, metadata: Stored, id: string)
    requires UniqueIds(rows)
    ensures UniqueIds(Replaced(rows, x, name, parent, metadata))
    ensures FindRow(Replaced(rows, x, name, parent, metadata), id) ==
            match FindRow(rows, id)
            case None => None
            case Some(r) => Some(if id == x then r.(name := name, parent := parent, metadata := metadata) else r)
  {
    var after := Replaced(rows, x, name, parent, metadata);
    ReplacedAt(rows, x, name, parent, metadata);
    ReplacedKeys(rows, x, name, parent, metadata, id);
    var found := FindRow(rows, id);
    if found.Some? {
      var i :| 0 <= i < |rows| && rows[i] == found.value;
      RowFound(after, after[i]);
    }
  }

  /** The row an action leaves for its own account. */
  function Outcome(row: Option<Account>, action: Action): Option<Account> {
    match action
    case Create(account) => Some(account)
    case Leave => row
    case Change(name, parent, metadata) =>
      match row
      case None => None
      case Some(r) => Some(r.(name := name, parent := parent, metadata := metadata))
  }

  /** An action touches the row of its own account and no other. */
  lemma ActionIsLocal(rows: seq<Account>, a: CoaAccount, action: Action, id: string)
    requires UniqueIds(rows) && Perform(rows, a, action).Ok?
    requires action.Create? ==> action.account.accountId == a.accountId
    ensures UniqueIds(Perform(rows, a, action).value)
    ensures FindRow(Perform(rows, a, action).value, id) ==
            if id == a.accountId then Outcome(FindRow(rows, id), action) else FindRow(rows, id)
  {
    hide FindRow, Aborts, ParentsOf, Replaced;
    match action {
      case Create(account) =>
        FoundAppended(rows, account, id);
        InsertedKeys(rows, account);
      case Leave =>
      case Change(name, parent, metadata) =>
        FoundReplaced(rows, a.accountId, name, parent, metadata, id);
        if !HasId(rows, a.accountId) {
          assert FindRow(rows, a.accountId).None?;
        }
    }
  }

  // ------------------------------------------------------------------ applying and dry-running

  /** What the import decides for the k-th account, from the rows it started with. */
  function Decision(file: CoaFile, start: seq<Account>, k: nat): Action
    requires k < |file.accounts|
  {
    Decide(file, IdSet(start), start, file.accounts[k])
  }

  lemma DecideCreates(file: CoaFile, before: set<string>, rows: seq<Account>, a: CoaAccount)
    ensures Decide(file, before, rows, a).Create? ==> Decide(file, before, rows, a).account == Fresh(file, a)
  {
  }

  lemma SameDecision(file: CoaFile, before: set<string>, rows: seq<Account>, other: seq<Account>, a: CoaAccount)
    requires FindRow(rows, a.accountId) == FindRow(other, a.accountId)
    ensures Decide(file, before, rows, a) == Decide(file, before, other, a)
  {
    hide Revise, Fresh, FindRow;
  }

  lemma FirstStep(file: CoaFile, start: seq<Account>, dryRun: bool)
    ensures Import(file, start, 0, dryRun) == Ok(Progress(start, Summary(0, 0, 0)))
  {
  }

  lemma DryStep(file: CoaFile, start: seq<Account>, k: nat, s: Summary)
    requires 0 < k <= |file.accounts| && Import(file, start, k - 1, true) == Ok(Progress(start, s))
    ensures Import(file, start, k, true) == Ok(Progress(start, Tally(s, Decision(file, start, k - 1))))
  {
    hide Perform, Revise, IdSet, FindRow;
  }

  lemma LastStep(file: CoaFile, start: seq<Account>, k: nat)
    requires 0 < k <= |file.accounts| && Import(file, start, k, false).Ok?
    ensures Import(file, start, k - 1, false).Ok?
    ensures var p, a := Import(file, start, k - 1, false).value, file.accounts[k - 1];
            var action := Decide(file, IdSet(start), p.rows, a);
            && Perform(p.rows, a, action).Ok?
            && Import(file, start, k, false) == Ok(Progress(Perform(p.rows, a, action).value, Tally(p.summary, action)))
            && (action.Create? ==> action.account.accountId == a.accountId)
  {
    hide Perform, Revise, IdSet, FindRow;
    var p, a := Import(file, start, k - 1, false).value, file.accounts[k - 1];
    DecideCreates(file, IdSet(start), p.rows, a);
    FreshId(file, a);
  }

  /** The i-th account's row after k accounts: as it was at the start until its turn, then what its own decision, taken
    on the starting rows, made of it. */
  predicate RowAfter(file: CoaFile, start: seq<Account>, rows: seq<Account>, k: nat, i: nat)
    requires i < |file.accounts|
  {
    var id := file.accounts[i].accountId;
    FindRow(rows, id) == if k <= i then FindRow(start, id) else Outcome(FindRow(start, id), Decision(file, start, i))
  }

  lemma RowAfterStep(file: CoaFile, start: seq<Account>, rows: seq<Account>, k: nat, i: nat)
    requires k < |file.accounts| && i < |file.accounts| && Distinct(FileIds(file.accounts)) && UniqueIds(rows)
    requires RowAfter(file, start, rows, k, i) && RowAfter(file, start, rows, k, k)
    requires Perform(rows, file.accounts[k], Decide(file, IdSet(start), rows, file.accounts[k])).Ok?
    ensures var after := Perform(rows, file.accounts[k], Decide(file, IdSet(start), rows, file.accounts[k])).value;
            UniqueIds(after) && RowAfter(file, start, after, k + 1, i)
  {
    hide FindRow, Perform, Outcome, UniqueIds, IdSet, Distinct, Decide;
    var a := file.accounts[k];
    SameDecision(file, IdSet(start), rows, start, a);
    OwnId(file, IdSet(start), rows, a);
    ActionIsLocal(rows, a, Decide(file, IdSet(start), rows, a), file.accounts[i].accountId);
    if i != k {
      IdsDiffer(file, k, i);
    }
  }

  lemma RowBefore(file: CoaFile, start: seq<Account>, i: nat)
    requires i < |file.accounts|
    ensures RowAfter(file, start, start, 0, i)
  {
  }

  lemma RowInTurn(file: CoaFile, start: seq<Account>, rows: seq<Account>, k: nat)
    requires k < |file.accounts| && RowAfter(file, start, rows, k, k)
    ensures Decide(file, IdSet(start), rows, file.accounts[k]) == Decision(file, start, k)
  {
    hide FindRow, Decide;
    SameDecision(file, IdSet(start), rows, start, file.accounts[k]);
  }

  lemma OwnId(file: CoaFile, before: set<string>, rows: seq<Account>, a: CoaAccount)
    ensures Decide(file, before, rows, a).Create? ==> Decide(file, before, rows, a).account.accountId == a.accountId
  {
    DecideCreates(file, before, rows, a);
    FreshId(file, a);
  }

  lemma {:induction false} ImportIsPointwise(file: CoaFile, start: seq<Account>, k: nat, i: nat)
    requires k <= |file.accounts| && i < |file.accounts| && Distinct(FileIds(file.accounts)) && UniqueIds(start)
    requires Import(file, start, k, false).Ok?
    ensures UniqueIds(Import(file, start, k, false).value.rows)
    ensures RowAfter(file, start, Import(file, start, k, false).value.rows, k, i)
    decreases k
  {
    hide RowAfter, Perform, UniqueIds, Decide, IdSet, Distinct, Import;
    if k == 0 {
      FirstStep(file, start, false);
      RowBefore(file, start, i);
    } else {
      LastStep(file, start, k);
      ImportIsPointwise(file, start, k - 1, i);
      ImportIsPointwise(file, start, k - 1, k - 1);
      RowAfterStep(file, start, Import(file, start, k - 1, false).value.rows, k - 1, i);
    }
  }

  lemma IdsDiffer(file: CoaFile, i: nat, j: nat)
    requires Distinct(FileIds(file.accounts)) && i < |file.accounts| && j < |file.accounts| && i != j
    ensures file.accounts[i].accountId != file.accounts[j].accountId
  {
    assert FileIds(file.accounts)[i] != FileIds(file.accounts)[j];
  }

  lemma FreshId(file: CoaFile, a: CoaAccount)
    ensures Fresh(file, a).accountId == a.accountId
  {
  }

  /** When an apply succeeds, a dry run on the same starting rows reports the same counts, and they sum to the number of
    accounts in the file. */
  lemma {:induction false} DryRunForetells(file: CoaFile, start: seq<Account>, k: nat)
    requires k <= |file.accounts| && Distinct(FileIds(file.accounts)) && UniqueIds(start)
    requires Import(file, start, k, false).Ok?
    ensures Import(file, start, k, true) == Ok(Progress(start, Import(file, start, k, false).value.summary))
    ensures var s := Import(file, start, k, false).value.summary;
            s.created + s.updated + s.untouched == k
    decreases k
  {
    hide Perform, FindRow, UniqueIds, Decide, IdSet, Import, RowAfter, Distinct, Decision;
    if k == 0 {
      FirstStep(file, start, false);
      FirstStep(file, start, true);
    } else {
      LastStep(file, start, k);
      DryRunForetells(file, start, k - 1);
      ImportIsPointwise(file, start, k - 1, k - 1);
      var p := Import(file, start, k - 1, false).value;
      RowInTurn(file, start, p.rows, k - 1);
      DryStep(file, start, k, p.summary);
    }
  }

  // ------------------------------------------------------------------ what an apply leaves

  /** The row an account should end with: new ones as the file has them; in upsert mode existing ones with the name and
    parent the flags let through and their metadata merged; otherwise as before. */
  ghost predicate IsImported(file: CoaFile, a: CoaAccount, before: Option<Account>, after: Account) {
    if before.None? then
      && after.accountId == a.accountId && after.code == a.accountId && after.name == a.name && after.parent == a.parent
      && (a.accountType in ["ASSET", "LIABILITY", "EQUITY", "INCOME", "EXPENSE"] ==>
            InLowerCase(a.accountType, after.accountType))
      && after.metadata == Canonical(BuildMetadata(a, file.defaultCurrency))
    else if file.mode == CreateOnly then after == before.value
    else
      && after.accountId == before.value.accountId && after.code == before.value.code
      && after.accountType == before.value.accountType
      && after.name == (if file.allow.name then a.name else before.value.name)
      && after.parent == (if file.allow.parentId then a.parent else before.value.parent)
      && MergedInto(FieldsIn(before.value.metadata), BuildMetadata(a, file.defaultCurrency), file.allow,
                    FieldsIn(after.metadata))
  }

  /** The fields a metadata column holds: none when its text is empty or does not parse. */
  function FieldsIn(stored: Stored): Metadata {
    if stored.Canonical? then stored.fields
    else if stored.text == "" || stored.parsed.None? then map[]
    else stored.parsed.value
  }

  /** Every field comes from the file when its flag allows it, and from the row otherwise. */
  ghost predicate MergedInto(own: Metadata, incoming: Metadata, allow: AllowUpdates, merged: Metadata) {
    forall key ::
      var allowed := if key == "description" then allow.description
                     else if key == "is_active" then allow.isActive
                     else allow.metadata;
      && (key in merged <==> key in own || (key in incoming && allowed))
      && (key in merged ==> merged[key] == if key in incoming && allowed then incoming[key] else own[key])
  }

  lemma MergeFields(stored: Stored, incoming: Metadata, allow: AllowUpdates)
    ensures Parsed(Current(stored)) == FieldsIn(stored)
    ensures MergedInto(FieldsIn(stored), incoming, allow, Merge(Current(stored), incoming, allow))
    ensures MergedInto(FieldsIn(stored), incoming, allow, FieldsIn(stored)) <==>
            Merge(Current(stored), incoming, allow) == FieldsIn(stored)
  {
    MergeMeaning(Current(stored), incoming, allow);
    if MergedInto(FieldsIn(stored), incoming, allow, FieldsIn(stored)) {
      MergeDetermined(Current(stored), incoming, allow, Merge(Current(stored), incoming, allow), FieldsIn(stored));
    }
  }

  /** The same letters in lower case. */
  predicate InLowerCase(upper: string, lower: string) {
    |lower| == |upper| && forall i :: 0 <= i < |upper| ==>
        'A' <= upper[i] <= 'Z' && lower[i] as int == upper[i] as int + 32
  }

  lemma OutcomeIsImported(file: CoaFile, start: seq<Account>, i: nat)
    requires i < |file.accounts|
    ensures var a, before := file.accounts[i], FindRow(start, file.accounts[i].accountId);
            var after := Outcome(before, Decision(file, start, i));
            after.Some? && IsImported(file, a, before, after.value)
  {
    hide Merge, BuildMetadata, FindRow, IdSet, IsMerge;
    var a := file.accounts[i];
    var before := FindRow(start, a.accountId);
    IdSetLists(start, a.accountId);
    if before.Some? {
      MergeFields(before.value.metadata, BuildMetadata(a, file.defaultCurrency), file.allow);
      hide MergedInto;
    }
  }

  /** After a successful apply every account of the file is in the table as the file, the mode and the flags say, and
    every account the file does not name is as it was. */
  lemma ApplyLeaves(file: CoaFile, start: seq<Account>, i: nat)
    requires i < |file.accounts| && Distinct(FileIds(file.accounts)) && UniqueIds(start)
    requires Import(file, start, |file.accounts|, false).Ok?
    ensures var a, after := file.accounts[i], Import(file, start, |file.accounts|, false).value.rows;
            var row := FindRow(after, a.accountId);
            row.Some? && IsImported(file, a, FindRow(start, a.accountId), row.value)
  {
    hide Import, FindRow, Outcome, Decision, IsImported, Distinct, UniqueIds;
    ImportIsPointwise(file, start, |file.accounts|, i);
    OutcomeIsImported(file, start, i);
  }

  lemma {:induction false} OthersUntouched(file: CoaFile, start: seq<Account>, k: nat, id: string)
    requires k <= |file.accounts| && Distinct(FileIds(file.accounts)) && UniqueIds(start)
    requires Import(file, start, k, false).Ok?
    requires forall a :: a in file.accounts ==> a.accountId != id
    ensures FindRow(Import(file, start, k, false).value.rows, id) == FindRow(start, id)
    decreases k
  {
    hide Import, FindRow, Decide, IdSet, Distinct, UniqueIds, Perform;
    if k == 0 {
      FirstStep(file, start, false);
    } else {
      var a := file.accounts[k - 1];
      LastStep(file, start, k);
      OthersUntouched(file, start, k - 1, id);
      ImportIsPointwise(file, start, k - 1, k - 1);
      var rows := Import(file, start, k - 1, false).value.rows;
      ActionIsLocal(rows, a, Decide(file, IdSet(start), rows, a), id);
    }
  }

  /** The created count is the number of accounts in the file that the table did not have, and the table grows by it. */
  lemma {:induction false} CreatedAreNew(file: CoaFile, start: seq<Account>, k: nat)
    requires k <= |file.accounts| && Distinct(FileIds(file.accounts)) && UniqueIds(start)
    requires Import(file, start, k, false).Ok?
    ensures var p := Import(file, start, k, false).value;
            && p.summary.created == |set j | 0 <= j < k && file.accounts[j].accountId !in IdSet(start)|
            && |p.rows| == |start| + p.summary.created
    decreases k
  {
    hide Import, FindRow, IdSet, Distinct, UniqueIds, Revise, Fresh, RowAfter;
    if k == 0 {
      FirstStep(file, start, false);
    } else {
      LastStep(file, start, k);
      CreatedAreNew(file, start, k - 1);
      var p, a := Import(file, start, k - 1, false).value, file.accounts[k - 1];
      var action := Decide(file, IdSet(start), p.rows, a);
      PerformSize(p.rows, a, action);
      ReviseNeverCreates(file, IdSet(start), p.rows, a);
      var earlier := set j | 0 <= j < k - 1 && file.accounts[j].accountId !in IdSet(start);
      var now := set j | 0 <= j < k && file.accounts[j].accountId !in IdSet(start);
      assert now == if a.accountId in IdSet(start) then earlier else earlier + {k - 1};
    }
  }

  /** The rows the decisions so far change. */
  ghost function Changes(file: CoaFile, start: seq<Account>, k: nat): set<nat>
    requires k <= |file.accounts|
  {
    set j: nat | j < k && Decision(file, start, j).Change?
  }

  lemma {:induction false} UpdatesCounted(file: CoaFile, start: seq<Account>, k: nat)
    requires k <= |file.accounts| && Distinct(FileIds(file.accounts)) && UniqueIds(start)
    requires Import(file, start, k, false).Ok?
    ensures Import(file, start, k, false).value.summary.updated == |Changes(file, start, k)|
    decreases k
  {
    hide Import, FindRow, IdSet, Distinct, UniqueIds, Decide, Decision, RowAfter, Perform;
    if k == 0 {
      FirstStep(file, start, false);
      assert Changes(file, start, k) == {};
    } else {
      LastStep(file, start, k);
      UpdatesCounted(file, start, k - 1);
      ImportIsPointwise(file, start, k - 1, k - 1);
      RowInTurn(file, start, Import(file, start, k - 1, false).value.rows, k - 1);
      var last: set<nat> := if Decision(file, start, k - 1).Change? then {k - 1} else {};
      assert Changes(file, start, k) == Changes(file, start, k - 1) + last;
    }
  }

  lemma ChangeShows(file: CoaFile, start: seq<Account>, i: nat)
    requires i < |file.accounts|
    ensures var before := FindRow(start, file.accounts[i].accountId);
            Decision(file, start, i).Change? <==> before.Some? && Outcome(before, Decision(file, start, i)) != before
  {
    hide Merge, BuildMetadata, FindRow, IdSet;
    IdSetLists(start, file.accounts[i].accountId);
  }

  /** The updated count is the number of the file's accounts whose row was there before and is another one now. */
  lemma UpdatedAreChanged(file: CoaFile, start: seq<Account>)
    requires Distinct(FileIds(file.accounts)) && UniqueIds(start)
    requires Import(file, start, |file.accounts|, false).Ok?
    ensures var p := Import(file, start, |file.accounts|, false).value;
            p.summary.updated == |set j: nat | j < |file.accounts|
                                    && FindRow(start, file.accounts[j].accountId).Some?
                                    && FindRow(p.rows, file.accounts[j].accountId)
                                       != FindRow(start, file.accounts[j].accountId)|
  {
    hide Import, FindRow, Outcome, Decision, Distinct, UniqueIds;
    var n := |file.accounts|;
    var rows := Import(file, start, n, false).value.rows;
    UpdatesCounted(file, start, n);
    forall j: nat | j < n
      ensures Decision(file, start, j).Change? <==>
              FindRow(start, file.accounts[j].accountId).Some?
              && FindRow(rows, file.accounts[j].accountId) != FindRow(start, file.accounts[j].accountId)
    {
      ImportIsPointwise(file, start, n, j);
      ChangeShows(file, start, j);
    }
    assert Changes(file, start, n) ==
           set j: nat | j < n && FindRow(start, file.accounts[j].accountId).Some?
                        && FindRow(rows, file.accounts[j].accountId) != FindRow(start, file.accounts[j].accountId);
  }

  function NotNamedIn(p: Payload): Account -> bool {
    (r: Account) => forall a :: a in p.accounts ==> a.accountId != r.accountId
  }

  /** The report counts the rows the file does not name, when it forbids leaving any out and does. */
  lemma MissingCounted(p: Payload, start: seq<Account>)
    requires UniqueIds(start)
    ensures var n := |Places(NotNamedIn(p), start)|;
            Missing(p, start) == if p.forbidDeletes && n > 0 then Some(n) else None
  {
    var extra := IdSet(start) - set id | id in FileIds(p.accounts);
    NamedIds(p);
    LeftOut(p, start);
    assert extra == set r | r in start && NotNamedIn(p)(r) :: r.accountId;
    assert |extra| == 0 <==> extra == {};
  }

  lemma NamedIds(p: Payload)
    ensures forall id :: id in FileIds(p.accounts) <==> exists a :: a in p.accounts && a.accountId == id
  {
    forall a | a in p.accounts ensures a.accountId in FileIds(p.accounts) {
      var k :| 0 <= k < |p.accounts| && p.accounts[k] == a;
      assert FileIds(p.accounts)[k] == a.accountId;
    }
  }

  lemma {:induction false} LeftOut(p: Payload, rows: seq<Account>)
    requires UniqueIds(rows)
    ensures |set r | r in rows && NotNamedIn(p)(r) :: r.accountId| == |Places(NotNamedIn(p), rows)|
  {
    hide Places;
    var ids := set r | r in rows && NotNamedIn(p)(r) :: r.accountId;
    if rows == [] {
      NoPlaces(NotNamedIn(p));
      assert ids == {};
    } else {
      var n := |rows| - 1;
      var rest := set r | r in rows[..n] && NotNamedIn(p)(r) :: r.accountId;
      LeftOut(p, rows[..n]);
      assert rows == rows[..n] + [rows[n]];
      PlacesAppend(NotNamedIn(p), rows[..n], rows[n]);
      assert ids == rest + if NotNamedIn(p)(rows[n]) then {rows[n].accountId} else {};
    }
  }

  lemma ReviseNeverCreates(file: CoaFile, before: set<string>, rows: seq<Account>, a: CoaAccount)
    ensures Decide(file, before, rows, a).Create? <==> a.accountId !in before
  {
  }

  lemma PerformSize(rows: seq<Account>, a: CoaAccount, action: Action)
    requires Perform(rows, a, action).Ok?
    ensures |Perform(rows, a, action).value| == |rows| + if action.Create? then 1 else 0
  {
    if action.Change? {
      ReplacedAt(rows, a.accountId, action.name, action.parent, action.metadata);
    }
  }

  // ------------------------------------------------------------------ applying twice

  /** Whatever was decided for an account, the file leaves the resulting row as it is. */
  lemma RevisedStays(file: CoaFile, a: CoaAccount, row: Account, after: Account)
    requires Outcome(Some(row), Revise(file, a, row)) == Some(after)
    ensures Revise(file, a, after).Leave?
  {
    hide Merge, BuildMetadata;
    MergeIdempotent(Current(row.metadata), BuildMetadata(a, file.defaultCurrency), file.allow);
  }

  lemma FreshStays(file: CoaFile, a: CoaAccount)
    ensures Revise(file, a, Fresh(file, a)).Leave?
  {
    hide Merge, BuildMetadata;
    MergeIdempotent(Canonical(map[]), BuildMetadata(a, file.defaultCurrency), file.allow);
  }

  lemma SecondDecision(file: CoaFile, start: seq<Account>, after: seq<Account>, i: nat)
    requires i < |file.accounts|
    requires FindRow(after, file.accounts[i].accountId) ==
             Outcome(FindRow(start, file.accounts[i].accountId), Decision(file, start, i))
    ensures Decision(file, after, i).Leave?
  {
    hide Revise, Fresh, FindRow;
    var a := file.accounts[i];
    var row := FindRow(start, a.accountId);
    IdSetLists(start, a.accountId);
    IdSetLists(after, a.accountId);
    if a.accountId !in IdSet(start) {
      FreshStays(file, a);
    } else if row.Some? && file.mode == Upsert {
      RevisedStays(file, a, row.value, FindRow(after, a.accountId).value);
    }
  }

  lemma IdSetLists(rows: seq<Account>, id: string)
    ensures id in IdSet(rows) <==> FindRow(rows, id).Some?
  {
    if i :| 0 <= i < |rows| && rows[i].accountId == id {
      assert rows[i] in rows;
    }
  }

  /** A second apply of the same file, under any mode and any update flags, creates and updates nothing. */
  lemma SecondApplyChangesNothing(file: CoaFile, start: seq<Account>)
    requires Distinct(FileIds(file.accounts)) && UniqueIds(start)
    requires Import(file, start, |file.accounts|, false).Ok?
    ensures var after := Import(file, start, |file.accounts|, false).value.rows;
            Import(file, after, |file.accounts|, false) == Ok(Progress(after, Summary(0, 0, |file.accounts|)))
  {
    hide Import, FindRow, Decision, Outcome, Distinct, UniqueIds;
    var n := |file.accounts|;
    var after := Import(file, start, n, false).value.rows;
    forall i: nat | i < n ensures Decision(file, after, i).Leave? {
      ImportIsPointwise(file, start, n, i);
      SecondDecision(file, start, after, i);
    }
    LeavesAll(file, after, n);
  }

  lemma {:induction false} LeavesAll(file: CoaFile, rows: seq<Account>, k: nat)
    requires k <= |file.accounts| && forall i: nat :: i < |file.accounts| ==> Decision(file, rows, i).Leave?
    ensures Import(file, rows, k, false) == Ok(Progress(rows, Summary(0, 0, k)))
    decreases k
  {
    hide Decide;
    if k > 0 {
      LeavesAll(file, rows, k - 1);
      assert Decision(file, rows, k - 1).Leave?;
    }
  }

  // ------------------------------------------------------------------ the table stays a forest

  /** An import that completes leaves a table of unique ids and codes, existing parents and no cycle. */
  lemma {:induction false} ImportKeepsTable(file: CoaFile, start: seq<Account>, k: nat)
    requires k <= |file.accounts| && TableInv(start) && Import(file, start, k, false).Ok?
    requires forall a :: a in file.accounts ==> a.accountId != ""
    ensures TableInv(Import(file, start, k, false).value.rows)
    decreases k
  {
    if k > 0 {
      hide Decide, Import, TableInv, Inserted, Updated;
      LastStep(file, start, k);
      ImportKeepsTable(file, start, k - 1);
      var p, a := Import(file, start, k - 1, false).value, file.accounts[k - 1];
      match Decide(file, IdSet(start), p.rows, a) {
        case Create(account) =>
          InsertKeepsTable(p.rows, account);
          InsertedRows(p.rows, account);
        case Leave =>
        case Change(name, parent, metadata) =>
          UpdateKeepsTable(p.rows, a.accountId, name, parent, metadata);
      }
    }
  }

  lemma InsertedRows(rows: seq<Account>, account: Account)
    requires Inserted(rows, account).Ok?
    ensures Inserted(rows, account).value == rows + [account]
  {
  }
}
