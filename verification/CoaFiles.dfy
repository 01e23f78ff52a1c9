/** A chart-of-accounts file as the importer reads it, and what its validator accepts
  (validate_coa_payload in src/capital_os/db/coa_importer.py). */
module CoaFiles {
  import opened Wrappers
  import opened Ordering
  import opened Hierarchy
  import opened Accounts
  import opened CycleCheck

  datatype CoaAccount = CoaAccount(
    accountId: string, name: string, accountType: string, parent: Option<string>, isActive: Option<bool>,
    currency: Option<string>, description: Option<string>, metadata: Option<Metadata>,
    tags: Option<Json>, externalRefs: Option<Json>)

  datatype Group = Group(groupId: string, accountIds: seq<string>)

  datatype Alias = Alias(alias: string, accountId: string)

  datatype Mode = Upsert | CreateOnly

  datatype AllowUpdates = AllowUpdates(name: bool, description: bool, metadata: bool, isActive: bool, parentId: bool)

  /** The parts of a parsed file, each of the type the validator asks for.  No version is a missing one or one that is
    not an integer; no mode is a text that names none. */
  datatype Payload = Payload(
    version: Option<int>, accounts: seq<CoaAccount>, groups: seq<Group>, aliases: seq<Alias>,
    defaultCurrency: Option<string>, mode: Option<Mode>, allow: AllowUpdates, forbidDeletes: bool)

  const VALID_ACCOUNT_TYPES := {"ASSET", "LIABILITY", "EQUITY", "INCOME", "EXPENSE"}

  function FileIds(accounts: seq<CoaAccount>): seq<string> {
    seq(|accounts|, i requires 0 <= i < |accounts| => accounts[i].accountId)
  }

  function GroupIds(groups: seq<Group>): seq<string> {
    seq(|groups|, i requires 0 <= i < |groups| => groups[i].groupId)
  }

  function AliasTexts(aliases: seq<Alias>): seq<string> {
    seq(|aliases|, i requires 0 <= i < |aliases| => aliases[i].alias)
  }

  /** parent_refs */
  function RefsOf(accounts: seq<CoaAccount>): map<string, string> {
    if accounts == [] then map[]
    else
      var last, before := accounts[|accounts| - 1], RefsOf(accounts[..|accounts| - 1]);
      if last.parent.Some? then before[last.accountId := last.parent.value] else before
  }

  /** str.isspace, for one character. */
  predicate IsSpace(c: char) {
    var n := c as int;
    || 0x09 <= n <= 0x0d || 0x1c <= n <= 0x20 || n in {0x85, 0xa0, 0x1680} || 0x2000 <= n <= 0x200a
    || n in {0x2028, 0x2029, 0x202f, 0x205f, 0x3000}
  }

  /** The whitespace characters, one by one. */
  lemma SpacesListed(c: char)
    ensures IsSpace(c) <==>
            c as int in [9, 10, 11, 12, 13, 28, 29, 30, 31, 32, 133, 160, 5760, 8192, 8193, 8194, 8195, 8196, 8197,
                         8198, 8199, 8200, 8201, 8202, 8232, 8233, 8239, 8287, 12288]
  {
  }

  predicate PlainId(id: string) {
    id != "" && forall i :: 0 <= i < |id| ==> !IsSpace(id[i])
  }

  /** What the validator asks of one account by itself. */
  predicate WellFormed(a: CoaAccount) {
    PlainId(a.accountId) && a.name != "" && a.accountType in VALID_ACCOUNT_TYPES
  }

  /** Ids unique, parents in the file, no cycle. */
  ghost predicate ValidAccounts(accounts: seq<CoaAccount>) {
    && accounts != []
    && Distinct(FileIds(accounts))
    && (forall a :: a in accounts ==> WellFormed(a) && (a.parent.Some? ==> a.parent.value in FileIds(accounts)))
    && Acyclic(Links(RefsOf(accounts)))
  }

  predicate ValidGroups(groups: seq<Group>, ids: seq<string>) {
    && Distinct(GroupIds(groups))
    && forall g :: g in groups ==> g.groupId != "" && forall id :: id in g.accountIds ==> id in ids
  }

  predicate ValidAliases(aliases: seq<Alias>, ids: seq<string>) {
    && Distinct(AliasTexts(aliases))
    && forall x :: x in aliases ==> x.alias != "" && x.accountId in ids
  }

  ghost predicate ValidPayload(p: Payload) {
    && p.version == Some(1)
    && ValidAccounts(p.accounts)
    && ValidGroups(p.groups, FileIds(p.accounts))
    && ValidAliases(p.aliases, FileIds(p.accounts))
  }

  // ------------------------------------------------------------------ the validator

  lemma FileIdsNext(accounts: seq<CoaAccount>, i: nat)
    requires i < |accounts|
    ensures FileIds(accounts[..i + 1]) == FileIds(accounts[..i]) + [accounts[i].accountId]
    ensures accounts[..i + 1][..i] == accounts[..i]
  {
  }

  /** The checks on one account, in the source's order. */
  method CheckAccount(a: CoaAccount) returns (valid: bool)
    ensures valid <==> WellFormed(a)
  {
    if a.accountId == "" {
      return false;
    }
    for i := 0 to |a.accountId|
      invariant forall k :: 0 <= k < i ==> !IsSpace(a.accountId[k])
    {
      if IsSpace(a.accountId[i]) {
        return false;
      }
    }
    if a.name == "" {
      return false;
    }
    valid := a.accountType in {"ASSET", "LIABILITY", "EQUITY", "INCOME", "EXPENSE"};
  }

  method CheckAccounts(accounts: seq<CoaAccount>) returns (valid: bool)
    ensures valid <==> ValidAccounts(accounts)
  {
    hide Acyclic, Links, WellFormed;
    if accounts == [] {
      return false;
    }
    var ids, refs := {}, map[];
    for i := 0 to |accounts|
      invariant Distinct(FileIds(accounts[..i])) && refs == RefsOf(accounts[..i])
      invariant forall id :: id in ids <==> id in FileIds(accounts[..i])
      invariant forall k :: 0 <= k < i ==> WellFormed(accounts[k])
    {
      var a := accounts[i];
      FileIdsNext(accounts, i);
      var wellFormed := CheckAccount(a);
      if !wellFormed || a.accountId in ids {
        Repeated(accounts, i);
        return false;
      }
      ids := ids + {a.accountId};
      if a.parent.Some? {
        refs := refs[a.accountId := a.parent.value];
      }
    }
    assert accounts[..|accounts|] == accounts;
    for i := 0 to |accounts|
      invariant forall k :: 0 <= k < i && accounts[k].parent.Some? ==> accounts[k].parent.value in ids
    {
      if accounts[i].parent.Some? && accounts[i].parent.value !in ids {
        assert accounts[i] in accounts;
        return false;
      }
    }
    var raised, _ := AssertAcyclic(refs);
    valid := !raised;
  }

  lemma Repeated(accounts: seq<CoaAccount>, i: nat)
    requires i < |accounts|
    ensures !WellFormed(accounts[i]) || accounts[i].accountId in FileIds(accounts[..i]) ==> !ValidAccounts(accounts)
  {
    hide Acyclic, WellFormed;
    assert accounts[i] in accounts;
    if accounts[i].accountId in FileIds(accounts[..i]) {
      var j :| 0 <= j < i && FileIds(accounts[..i])[j] == accounts[i].accountId;
      assert FileIds(accounts)[j] == FileIds(accounts)[i];
    }
  }

  method CheckGroups(groups: seq<Group>, ids: seq<string>) returns (valid: bool)
    ensures valid <==> ValidGroups(groups, ids)
  {
    var seen := {};
    for i := 0 to |groups|
      invariant forall id :: id in seen <==> exists k :: 0 <= k < i && groups[k].groupId == id
      invariant forall j, k :: 0 <= j < k < i ==> groups[j].groupId != groups[k].groupId
      invariant forall k :: 0 <= k < i ==>
                  groups[k].groupId != "" && forall id :: id in groups[k].accountIds ==> id in ids
    {
      var g := groups[i];
      if g.groupId == "" || g.groupId in seen {
        assert g in groups;
        if g.groupId in seen {
          var k :| 0 <= k < i && groups[k].groupId == g.groupId;
          assert GroupIds(groups)[k] == GroupIds(groups)[i];
        }
        return false;
      }
      seen := seen + {g.groupId};
      for m := 0 to |g.accountIds|
        invariant forall k :: 0 <= k < m ==> g.accountIds[k] in ids
      {
        if g.accountIds[m] !in ids {
          assert g in groups && g.accountIds[m] in g.accountIds;
          return false;
        }
      }
    }
    valid := true;
  }

  method CheckAliases(aliases: seq<Alias>, ids: seq<string>) returns (valid: bool)
    ensures valid <==> ValidAliases(aliases, ids)
  {
    var seen := {};
    for i := 0 to |aliases|
      invariant forall text :: text in seen <==> exists k :: 0 <= k < i && aliases[k].alias == text
      invariant forall j, k :: 0 <= j < k < i ==> aliases[j].alias != aliases[k].alias
      invariant forall k :: 0 <= k < i ==> aliases[k].alias != "" && aliases[k].accountId in ids
    {
      var x := aliases[i];
      if x.alias == "" || x.alias in seen {
        assert x in aliases;
        if x.alias in seen {
          var k :| 0 <= k < i && aliases[k].alias == x.alias;
          assert AliasTexts(aliases)[k] == AliasTexts(aliases)[i];
        }
        return false;
      }
      seen := seen + {x.alias};
      if x.accountId !in ids {
        assert x in aliases;
        return false;
      }
    }
    valid := true;
  }

  /** validate_coa_payload accepts exactly the valid files. */
  method Validate(p: Payload) returns (valid: bool)
    ensures valid <==> ValidPayload(p)
  {
    hide ValidAccounts, ValidGroups, ValidAliases;
    if p.version != Some(1) {
      return false;
    }
    valid := CheckAccounts(p.accounts);
    if valid {
      valid := CheckGroups(p.groups, FileIds(p.accounts));
    }
    if valid {
      valid := CheckAliases(p.aliases, FileIds(p.accounts));
    }
  }
}
