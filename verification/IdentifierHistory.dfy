/** Account profile updates and the history of external identifiers they keep
  (update_account_profile in src/capital_os/domain/accounts/service.py; the history writes in
  src/capital_os/domain/ledger/repository.py; migrations/0010_account_identifier_history.sql). */
module IdentifierHistory {
  import opened Wrappers
  import opened Ordering

  datatype Profile = Profile(displayName: string, institution: Option<string>, suffix: Option<string>)

  /** A request field that may be missing, null or given. */
  datatype Patch = Missing | Clear | Give(value: string)

  datatype Request = Request(
    sourceSystem: string, externalId: string, accountId: string,
    displayName: Option<string>, institution: Patch, suffix: Patch)

  datatype Response = Response(accountId: string, profile: Profile)

  datatype HistoryRow = HistoryRow(
    accountId: string, sourceSystem: string, externalId: string, suffix: Option<string>,
    validFrom: int, validTo: Option<int>)

  datatype Key = Key(sourceSystem: string, externalId: string)

  datatype UpdateError = UnknownAccount | IntegrityFailure

  /** The tool's proposals by their unique key, the account profiles, and the history in insertion order. */
  datatype State = State(proposals: map<Key, Option<Response>>, profiles: map<string, Profile>,
                         history: seq<HistoryRow>)

  // ------------------------------------------------------------------ the update

  function KeyOf(req: Request): Key {
    Key(req.sourceSystem, req.externalId)
  }

  function Patched(current: Option<string>, patch: Patch): Option<string> {
    match patch case Missing => current case Clear => None case Give(value) => Some(value)
  }

  function Revised(current: Profile, req: Request): Profile {
    Profile(if req.displayName.Some? then req.displayName.value else current.displayName,
            Patched(current.institution, req.institution), Patched(current.suffix, req.suffix))
  }

  function SameLine(accountId: string, sourceSystem: string): HistoryRow -> bool {
    (r: HistoryRow) => r.accountId == accountId && r.sourceSystem == sourceSystem
  }

  /** The row with no end, the newest such if there were several. */
  function ActiveAt(history: seq<HistoryRow>, accountId: string, sourceSystem: string): (k: Option<nat>)
    ensures k.Some? ==>
              k.value < |history| && SameLine(accountId, sourceSystem)(history[k.value])
                  && history[k.value].validTo.None?
    ensures k.None? ==> forall r :: r in history && SameLine(accountId, sourceSystem)(r) ==> r.validTo.Some?
  {
    if history == [] then None
    else
      var n := |history| - 1;
      if SameLine(accountId, sourceSystem)(history[n]) && history[n].validTo.None? then Some(n)
      else ActiveAt(history[..n], accountId, sourceSystem)
  }

  /** INSERT, under the unique index on open rows. */
  function InsertHistory(history: seq<HistoryRow>, row: HistoryRow): Result<seq<HistoryRow>, UpdateError> {
    if ActiveAt(history, row.accountId, row.sourceSystem).Some? then Err(IntegrityFailure) else Ok(history + [row])
  }

  /** The history after an update whose profile now carries `suffix`. */
  function Rolled(history: seq<HistoryRow>, req: Request, suffix: Option<string>,
                  now: int): Result<seq<HistoryRow>, UpdateError> {
    var row := HistoryRow(req.accountId, req.sourceSystem, req.externalId, suffix, now, None);
    match ActiveAt(history, req.accountId, req.sourceSystem)
    case None => InsertHistory(history, row)
    case Some(k) =>
      if history[k].externalId != req.externalId || history[k].suffix != suffix then
        InsertHistory(history[k := history[k].(validTo := Some(now))], row)
      else Ok(history)
  }

  /** update_account_profile as a step: the state it leaves, rolled back when it raises, and what it returns. */
  function Update(s: State, req: Request, now: int): (State, Result<Response, UpdateError>) {
    var key := KeyOf(req);
    if key in s.proposals then
      match s.proposals[key]
      case Some(response) => (s, Ok(response))
      case None => (s, Err(IntegrityFailure))
    else if req.accountId !in s.profiles then (s, Err(UnknownAccount))
    else
      var profile := Revised(s.profiles[req.accountId], req);
      match Rolled(s.history, req, profile.suffix, now)
      case Err(e) => (s, Err(e))
      case Ok(history) =>
        var response := Response(req.accountId, profile);
        (State(s.proposals[key := Some(response)], s.profiles[req.accountId := profile], history), Ok(response))
  }

  class ProfileStore {
    var proposals: map<Key, Option<Response>>
    var profiles: map<string, Profile>
    var history: seq<HistoryRow>

    constructor (profiles: map<string, Profile>)
      ensures Current() == State(map[], profiles, [])
    {
      this.proposals, this.profiles, this.history := map[], profiles, [];
    }

    ghost function Current(): State
      reads this
    {
      State(proposals, profiles, history)
    }

    /** insert_proposal: a second row under the unique key is refused. */
    method InsertProposal(key: Key) returns (ok: bool)
      modifies this`proposals
      ensures ok == (key !in old(proposals))
      ensures proposals == if ok then old(proposals)[key := None] else old(proposals)
    {
      ok := key !in proposals;
      if ok {
        proposals := proposals[key := None];
      }
    }

    method InsertIdentifier(row: HistoryRow) returns (ok: bool)
      modifies this`history
      ensures ok == InsertHistory(old(history), row).Ok?
      ensures history == if ok then old(history) + [row] else old(history)
    {
      var active := ActiveAt(history, row.accountId, row.sourceSystem);
      ok := active.None?;
      if ok {
        history := history + [row];
      }
    }

    /** The open row of the line is closed and a new one opened, unless it already says the same. */
    method RollIdentifier(req: Request, suffix: Option<string>, now: int) returns (ok: bool)
      modifies this`history
      ensures Rolled(old(history), req, suffix, now) == if ok then Ok(history) else Err(IntegrityFailure)
    {
      var row := HistoryRow(req.accountId, req.sourceSystem, req.externalId, suffix, now, None);
      var active := ActiveAt(history, req.accountId, req.sourceSystem);
      ok := true;
      if active.None? {
        ok := InsertIdentifier(row);
      } else if history[active.value].externalId != req.externalId || history[active.value].suffix != suffix {
        history := history[active.value := history[active.value].(validTo := Some(now))];
        ok := InsertIdentifier(row);
      }
    }

    /** Each field of the request that is present replaces the account's; a null clears it. */
    static method Revise(current: Profile, req: Request) returns (profile: Profile)
      ensures profile == Revised(current, req)
    {
      var displayName := current.displayName;
      if req.displayName.Some? {
        displayName := req.displayName.value;
      }
      var institution, suffix := current.institution, current.suffix;
      if req.institution.Clear? {
        institution := None;
      } else if req.institution.Give? {
        institution := Some(req.institution.value);
      }
      if req.suffix.Clear? {
        suffix := None;
      } else if req.suffix.Give? {
        suffix := Some(req.suffix.value);
      }
      profile := Profile(displayName, institution, suffix);
    }

    /** update_account_profile */
    method UpdateAccountProfile(req: Request, now: int) returns (r: Result<Response, UpdateError>)
      modifies this
      ensures (Current(), r) == Update(old(Current()), req, now)
    {
      hide Rolled, Revised;
      var key := KeyOf(req);
      if key in proposals && proposals[key].Some? {
        return Ok(proposals[key].value);
      }
      var oldProposals, oldProfiles, oldHistory := proposals, profiles, history;
      var inserted := InsertProposal(key);
      if !inserted {
        return Err(IntegrityFailure);
      }
      if req.accountId !in profiles {
        proposals := oldProposals;
        return Err(UnknownAccount);
      }
      var profile := Revise(profiles[req.accountId], req);
      profiles := profiles[req.accountId := profile];
      var ok := RollIdentifier(req, profile.suffix, now);
      if !ok {
        proposals, profiles, history := oldProposals, oldProfiles, oldHistory;
        return Err(IntegrityFailure);
      }
      var response := Response(req.accountId, profile);
      proposals := proposals[key := Some(response)];
      assert proposals == oldProposals[key := Some(response)];
      r := Ok(response);
    }
  }

  // ------------------------------------------------------------------ the history

  /** The rows of one account and source, oldest first. */
  function Line(history: seq<HistoryRow>, accountId: string, sourceSystem: string): seq<HistoryRow> {
    Filter(SameLine(accountId, sourceSystem), history)
  }

  /** Each row ends where the next begins, and only the last is open. */
  predicate Chained(line: seq<HistoryRow>) {
    && (forall i :: 0 <= i < |line| - 1 ==> line[i].validTo == Some(line[i + 1].validFrom))
    && (line != [] ==> line[|line| - 1].validTo.None?)
  }

  function ExternalOf(r: HistoryRow): Key {
    Key(r.sourceSystem, r.externalId)
  }

  function Externals(history: seq<HistoryRow>): seq<Key> {
    seq(|history|, i requires 0 <= i < |history| => ExternalOf(history[i]))
  }

  ghost predicate Inv(s: State) {
    && (forall key :: key in s.proposals ==> s.proposals[key].Some?)
    && (forall key :: key in Externals(s.history) <==> key in s.proposals)
    && Distinct(Externals(s.history))
    && (forall a, src :: Chained(Line(s.history, a, src)))
  }

  // ------------------------------------------------------------------ one update

  lemma {:induction false} LineMember(history: seq<HistoryRow>, a: string, src: string, r: HistoryRow)
    ensures r in Line(history, a, src) <==> r in history && SameLine(a, src)(r)
  {
    FilterMember(SameLine(a, src), history, r);
  }

  /** The open row of a line is its last. */
  lemma ActiveIsLast(history: seq<HistoryRow>, a: string, src: string, k: nat)
    requires Chained(Line(history, a, src)) && ActiveAt(history, a, src) == Some(k)
    ensures Line(history[k + 1..], a, src) == []
    ensures Line(history, a, src) == Line(history[..k], a, src) + [history[k]]
  {
    var keep := SameLine(a, src);
    var before, after := history[..k], history[k + 1..];
    assert history == (before + [history[k]]) + after;
    FilterConcat(keep, before + [history[k]], after);
    FilterAppend(keep, before, history[k]);
    var line := Line(history, a, src);
    var m := |Filter(keep, before)|;
    assert line == Filter(keep, before) + [history[k]] + Filter(keep, after);
    assert line[m] == history[k];
    InsideClosed(line, m);
  }

  lemma InsideClosed(line: seq<HistoryRow>, m: nat)
    requires Chained(line) && m < |line|
    ensures m + 1 < |line| ==> line[m].validTo.Some?
  {
    if m + 1 < |line| {
      assert line[m].validTo == Some(line[m + 1].validFrom);
    }
  }

  /** Closing the open row of a line and appending one for the same line. */
  lemma LineRolled(history: seq<HistoryRow>, a: string, src: string, k: nat, row: HistoryRow, x: string, y: string)
    requires Chained(Line(history, a, src)) && ActiveAt(history, a, src) == Some(k)
    requires row.accountId == a && row.sourceSystem == src && row.validTo.None?
    ensures var closed := history[k].(validTo := Some(row.validFrom));
            Line(history[k := closed] + [row], x, y) ==
            if x == a && y == src then Line(history[..k], a, src) + [closed, row] else Line(history, x, y)
  {
    hide Line, Chained, ActiveAt;
    var closed := history[k].(validTo := Some(row.validFrom));
    ActiveIsLast(history, a, src, k);
    ReplacedInLine(history, k, closed, x, y);
    NewInLine(history[k := closed], row, x, y);
    if x == a && y == src {
      assert Line(history[..k], a, src) + [closed] + [] + [row] == Line(history[..k], a, src) + [closed, row];
    } else {
      ReplacedInLine(history, k, history[k], x, y);
      assert history[k := history[k]] == history;
    }
  }

  lemma ReplacedInLine(history: seq<HistoryRow>, k: nat, r: HistoryRow, x: string, y: string)
    requires k < |history|
    ensures Line(history[k := r], x, y) ==
            Line(history[..k], x, y) + (if SameLine(x, y)(r) then [r] else []) + Line(history[k + 1..], x, y)
  {
    var keep := SameLine(x, y);
    assert history[k := r] == (history[..k] + [r]) + history[k + 1..];
    FilterConcat(keep, history[..k] + [r], history[k + 1..]);
    FilterAppend(keep, history[..k], r);
  }

  lemma NewInLine(history: seq<HistoryRow>, row: HistoryRow, x: string, y: string)
    ensures Line(history + [row], x, y) == Line(history, x, y) + if SameLine(x, y)(row) then [row] else []
  {
    FilterAppend(SameLine(x, y), history, row);
  }

  /** Without an open row there is no row in the line at all. */
  lemma NoActiveNoLine(history: seq<HistoryRow>, a: string, src: string)
    requires Chained(Line(history, a, src)) && ActiveAt(history, a, src).None?
    ensures Line(history, a, src) == []
  {
    var line := Line(history, a, src);
    if line != [] {
      LineMember(history, a, src, line[|line| - 1]);
    }
  }

  lemma KeyListed(history: seq<HistoryRow>, k: nat)
    requires k < |history|
    ensures ExternalOf(history[k]) in Externals(history)
  {
    assert Externals(history)[k] == ExternalOf(history[k]);
  }

  lemma ExternalsAfter(history: seq<HistoryRow>, k: nat, closed: HistoryRow, row: HistoryRow)
    requires k < |history| && ExternalOf(closed) == ExternalOf(history[k])
    ensures Externals(history + [row]) == Externals(history) + [ExternalOf(row)]
    ensures Externals(history[k := closed] + [row]) == Externals(history) + [ExternalOf(row)]
  {
  }

  lemma ClosedLeavesNone(history: seq<HistoryRow>, a: string, src: string, k: nat, to: int)
    requires Chained(Line(history, a, src)) && ActiveAt(history, a, src) == Some(k)
    ensures ActiveAt(history[k := history[k].(validTo := Some(to))], a, src).None?
  {
    ActiveIsLast(history, a, src, k);
    var closed := history[k].(validTo := Some(to));
    var h := history[k := closed];
    if j :| 0 <= j < |h| && SameLine(a, src)(h[j]) && h[j].validTo.None? {
      OpenIsLast(history, a, src, j);
    }
    var active := ActiveAt(h, a, src);
  }

  lemma OpenIsLast(history: seq<HistoryRow>, a: string, src: string, j: nat)
    requires j < |history| && SameLine(a, src)(history[j]) && history[j].validTo.None? && Chained(Line(history, a, src))
    ensures ActiveAt(history, a, src) == Some(j)
  {
    var keep := SameLine(a, src);
    var k := ActiveAt(history, a, src);
    if k.Some? && k.value != j {
      ActiveIsLast(history, a, src, k.value);
      if j > k.value {
        assert history[j] in history[k.value + 1..];
        FilterMember(keep, history[k.value + 1..], history[j]);
      } else {
        assert history[j] in history[..k.value];
        FilterMember(keep, history[..k.value], history[j]);
        var line := Line(history, a, src);
        var m :| 0 <= m < |Filter(keep, history[..k.value])| && Filter(keep, history[..k.value])[m] == history[j];
        InsideClosed(line, m);
      }
    }
  }

  /** An update that is not a replay and not refused adds exactly one row, for its own key, with the suffix the account
    now carries; the row before it in the line, if any, ends at that moment; every other line is as it was. */
  lemma UpdateAddsOne(s: State, req: Request, now: int)
    requires Inv(s) && KeyOf(req) !in s.proposals && req.accountId in s.profiles
    ensures var (t, r) := Update(s, req, now);
            && r.Ok?
            && r.value == Response(req.accountId, t.profiles[req.accountId])
            && KeyOf(req) in t.proposals && t.proposals == s.proposals[KeyOf(req) := Some(r.value)]
            && Externals(t.history) == Externals(s.history) + [KeyOf(req)]
            && (forall x, y :: x != req.accountId || y != req.sourceSystem ==>
                  Line(t.history, x, y) == Line(s.history, x, y))
            && var before := Line(s.history, req.accountId, req.sourceSystem);
               var row := HistoryRow(req.accountId, req.sourceSystem, req.externalId,
                                     t.profiles[req.accountId].suffix, now, None);
               var closed := if before == [] then []
                             else before[..|before| - 1] + [before[|before| - 1].(validTo := Some(now))];
               Line(t.history, req.accountId, req.sourceSystem) == closed + [row]
  {
    hide Line;
    var a, src := req.accountId, req.sourceSystem;
    var suffix := Revised(s.profiles[a], req).suffix;
    var row := HistoryRow(a, src, req.externalId, suffix, now, None);
    match ActiveAt(s.history, a, src) {
      case None =>
        NoActiveNoLine(s.history, a, src);
        forall x, y
          ensures Line(s.history + [row], x, y) == Line(s.history, x, y) + if SameLine(x, y)(row) then [row] else []
        {
          NewInLine(s.history, row, x, y);
        }
        assert Externals(s.history + [row]) == Externals(s.history) + [ExternalOf(row)];
      case Some(k) =>
        KeyListed(s.history, k);
        assert s.history[k].externalId != req.externalId;
        var closed := s.history[k].(validTo := Some(now));
        ClosedLeavesNone(s.history, a, src, k, now);
        ActiveIsLast(s.history, a, src, k);
        forall x, y
          ensures Line(s.history[k := closed] + [row], x, y) ==
                  if x == a && y == src then Line(s.history[..k], a, src) + [closed, row] else Line(s.history, x, y)
        {
          LineRolled(s.history, a, src, k, row, x, y);
        }
        ExternalsAfter(s.history, k, closed, row);
    }
  }

  /** After an update that goes through, every field the request gives has its value, every field it clears is gone,
    every field it omits is as it was, and no other account has changed. */
  lemma UpdateTouchesOnlyWhatItNames(s: State, req: Request, now: int, other: string)
    requires Inv(s) && KeyOf(req) !in s.proposals && req.accountId in s.profiles
    ensures var (t, before) := (Update(s, req, now).0, s.profiles[req.accountId]);
            && t.profiles.Keys == s.profiles.Keys
            && (other in s.profiles && other != req.accountId ==> t.profiles[other] == s.profiles[other])
            && var profile := t.profiles[req.accountId];
               && profile.displayName == (if req.displayName.Some? then req.displayName.value else before.displayName)
               && (req.institution.Missing? ==> profile.institution == before.institution)
               && (req.institution.Clear? ==> profile.institution == None)
               && (req.institution.Give? ==> profile.institution == Some(req.institution.value))
               && (req.suffix.Missing? ==> profile.suffix == before.suffix)
               && (req.suffix.Clear? ==> profile.suffix == None)
               && (req.suffix.Give? ==> profile.suffix == Some(req.suffix.value))
  {
    UpdateAddsOne(s, req, now);
    hide Rolled, Inv;
  }

  // ------------------------------------------------------------------ runs

  /** One update, or any other tool setting up or editing an account's profile. */
  datatype Step = Call(req: Request, now: int) | Edit(accountId: string, profile: Profile)

  function After(s: State, step: Step): State {
    match step
    case Call(req, now) => Update(s, req, now).0
    case Edit(id, profile) => s.(profiles := s.profiles[id := profile])
  }

  function Run(s: State, steps: seq<Step>): State {
    if steps == [] then s else After(Run(s, steps[..|steps| - 1]), steps[|steps| - 1])
  }

  lemma UpdateKeepsInv(s: State, req: Request, now: int)
    requires Inv(s)
    ensures Inv(Update(s, req, now).0)
  {
    var key, t := KeyOf(req), Update(s, req, now).0;
    if key !in s.proposals && req.accountId in s.profiles {
      UpdateAddsOne(s, req, now);
      hide Update, Line, KeyOf;
      forall a, src ensures Chained(Line(t.history, a, src)) {
        if a == req.accountId && src == req.sourceSystem {
          RolledChained(Line(s.history, a, src), now, Line(t.history, a, src));
        } else {
          assert Line(t.history, a, src) == Line(s.history, a, src);
        }
      }
      assert Distinct(Externals(t.history));
    }
  }

  /** Closing a chain's open row where the next row begins leaves a chain. */
  lemma RolledChained(before: seq<HistoryRow>, now: int, after: seq<HistoryRow>)
    requires Chained(before) && after != []
    requires after[|after| - 1].validFrom == now && after[|after| - 1].validTo.None?
    requires after[..|after| - 1] ==
             if before == [] then [] else before[..|before| - 1] + [before[|before| - 1].(validTo := Some(now))]
    ensures Chained(after)
  {
    var head := after[..|after| - 1];
    forall i | 0 <= i < |after| - 1
      ensures after[i].validTo == Some(after[i + 1].validFrom)
    {
      assert after[i] == head[i];
      if i + 1 < |head| {
        assert after[i + 1] == head[i + 1];
        assert head[i] == before[i] && head[i + 1].validFrom == before[i + 1].validFrom;
      }
    }
  }

  /** From an empty history, over any run: the rows of each account and source form a chain, each ending where the next
    begins and only the last open; no external id repeats within a source; and there is one row for each recorded
    update. */
  lemma {:induction false} HistoryOverRuns(profiles: map<string, Profile>, steps: seq<Step>)
    ensures var s := Run(State(map[], profiles, []), steps);
            && Inv(s)
            && (forall i, j :: 0 <= i < j < |s.history| ==> ExternalOf(s.history[i]) != ExternalOf(s.history[j]))
            && |s.history| == |s.proposals|
  {
    var start := State(map[], profiles, []);
    if steps != [] {
      var n := |steps| - 1;
      HistoryOverRuns(profiles, steps[..n]);
      match steps[n] {
        case Call(req, now) => UpdateKeepsInv(Run(start, steps[..n]), req, now);
        case Edit(_, _) =>
      }
    }
    var s := Run(start, steps);
    RowPerProposal(s);
  }

  lemma RowPerProposal(s: State)
    requires Inv(s)
    ensures forall i, j :: 0 <= i < j < |s.history| ==> ExternalOf(s.history[i]) != ExternalOf(s.history[j])
    ensures |s.history| == |s.proposals|
  {
    hide Line;
    var keys := Externals(s.history);
    forall i, j | 0 <= i < j < |s.history| ensures ExternalOf(s.history[i]) != ExternalOf(s.history[j]) {
      assert keys[i] != keys[j];
    }
    DistinctSize(keys);
    assert (set key | key in keys) == s.proposals.Keys;
  }

  /** In every reachable state an update fails only for an unknown account, and a failure or a replay changes
    nothing. */
  lemma FailuresAndReplaysAddNothing(profiles: map<string, Profile>, steps: seq<Step>, req: Request, now: int)
    ensures var s := Run(State(map[], profiles, []), steps);
            var (t, r) := Update(s, req, now);
            && (r.Err? <==> KeyOf(req) !in s.proposals && req.accountId !in s.profiles)
            && (r.Err? ==> r == Err(UnknownAccount))
            && (r.Err? || KeyOf(req) in s.proposals ==> t == s)
  {
    HistoryOverRuns(profiles, steps);
    var s := Run(State(map[], profiles, []), steps);
    if KeyOf(req) !in s.proposals && req.accountId in s.profiles {
      UpdateAddsOne(s, req, now);
    }
  }

  lemma KeptProposal(s: State, step: Step, key: Key)
    requires key in s.proposals && s.proposals[key].Some?
    ensures key in After(s, step).proposals && After(s, step).proposals[key] == s.proposals[key]
  {
    hide Rolled, Revised;
  }

  /** Once an update is recorded, every later call under its key returns the same response. */
  lemma {:induction false} ReplayIsStable(s: State, steps: seq<Step>, req: Request, now: int)
    requires KeyOf(req) in s.proposals && s.proposals[KeyOf(req)].Some?
    ensures Update(Run(s, steps), req, now) == (Run(s, steps), Ok(s.proposals[KeyOf(req)].value))
    ensures KeyOf(req) in Run(s, steps).proposals && Run(s, steps).proposals[KeyOf(req)] == s.proposals[KeyOf(req)]
  {
    if steps != [] {
      hide Update;
      var n := |steps| - 1;
      ReplayIsStable(s, steps[..n], req, now);
      KeptProposal(Run(s, steps[..n]), steps[n], KeyOf(req));
    }
    RecordedAnswers(Run(s, steps), req, now);
  }

  lemma RecordedAnswers(s: State, req: Request, now: int)
    requires KeyOf(req) in s.proposals && s.proposals[KeyOf(req)].Some?
    ensures Update(s, req, now) == (s, Ok(s.proposals[KeyOf(req)].value))
  {
  }

  // ------------------------------------------------------------------ the identifier at an instant

  /** The clock does not run backwards from `from`, and ends at or before `to`. */
  predicate Forward(steps: seq<Step>, from: int, to: int) {
    if steps == [] then from <= to
    else
      var n := |steps| - 1;
      match steps[n]
      case Call(_, now) => now <= to && Forward(steps[..n], from, now)
      case Edit(_, _) => Forward(steps[..n], from, to)
  }

  predicate ByStart(x: HistoryRow, y: HistoryRow) {
    x.validFrom <= y.validFrom
  }

  ghost predicate Timed(history: seq<HistoryRow>, latest: int) {
    SortedBy(ByStart, history) && forall r :: r in history ==> r.validFrom <= latest
  }

  lemma TimedStep(history: seq<HistoryRow>, k: nat, latest: int, now: int, row: HistoryRow)
    requires Timed(history, latest) && latest <= now && row.validFrom == now
    ensures Timed(history, now) && Timed(history + [row], now)
    ensures k < |history| ==> Timed(history[k := history[k].(validTo := Some(now))] + [row], now)
  {
  }

  lemma {:induction false} HistoryTimed(profiles: map<string, Profile>, steps: seq<Step>, from: int, to: int)
    requires Forward(steps, from, to)
    ensures Timed(Run(State(map[], profiles, []), steps).history, to)
  {
    if steps != [] {
      var n := |steps| - 1;
      var s := Run(State(map[], profiles, []), steps[..n]);
      match steps[n] {
        case Call(req, now) =>
          HistoryTimed(profiles, steps[..n], from, now);
          UpdateTimed(s, req, now);
          Later(Run(State(map[], profiles, []), steps).history, now, to);
        case Edit(_, _) =>
          HistoryTimed(profiles, steps[..n], from, to);
      }
    }
  }

  lemma Later(history: seq<HistoryRow>, now: int, to: int)
    requires Timed(history, now) && now <= to
    ensures Timed(history, to)
  {
  }

  lemma UpdateTimed(s: State, req: Request, now: int)
    requires Timed(s.history, now)
    ensures Timed(Update(s, req, now).0.history, now)
  {
    hide Timed;
    if req.accountId in s.profiles {
      var row := HistoryRow(req.accountId, req.sourceSystem, req.externalId,
                            Revised(s.profiles[req.accountId], req).suffix, now, None);
      match ActiveAt(s.history, req.accountId, req.sourceSystem) {
        case None => TimedStep(s.history, 0, now, now, row);
        case Some(k) => TimedStep(s.history, k, now, now, row);
      }
    }
  }

  predicate Covers(r: HistoryRow, at: int) {
    r.validFrom <= at && (r.validTo.None? || at < r.validTo.value)
  }

  lemma {:induction false} CoveringRow(line: seq<HistoryRow>, at: int) returns (i: nat)
    requires Chained(line) && SortedBy(ByStart, line) && line != [] && line[0].validFrom <= at
    ensures i < |line| && Covers(line[i], at)
  {
    i := 0;
    while i + 1 < |line| && line[i + 1].validFrom <= at
      invariant i < |line| && line[i].validFrom <= at
    {
      i := i + 1;
    }
    InsideClosed(line, i);
  }

  /** While the clock does not run backwards, at every instant each account has at most one identifier per source, and
    exactly one from its first update on. */
  lemma OneIdentifierAtATime(profiles: map<string, Profile>, steps: seq<Step>, from: int, to: int, a: string,
                             src: string, at: int)
    requires Forward(steps, from, to)
    ensures var line := Line(Run(State(map[], profiles, []), steps).history, a, src);
            && (forall i, j :: 0 <= i < j < |line| ==> !(Covers(line[i], at) && Covers(line[j], at)))
            && ((exists i :: 0 <= i < |line| && Covers(line[i], at)) <==> line != [] && line[0].validFrom <= at)
  {
    HistoryOverRuns(profiles, steps);
    HistoryTimed(profiles, steps, from, to);
    var history := Run(State(map[], profiles, []), steps).history;
    var line := Line(history, a, src);
    FilterSorted(ByStart, SameLine(a, src), history);
    hide Line, Run, Inv, Timed;
    forall i, j | 0 <= i < j < |line| ensures !(Covers(line[i], at) && Covers(line[j], at)) {
      InsideClosed(line, i);
      assert line[i].validTo == Some(line[i + 1].validFrom);
      assert i + 1 == j || ByStart(line[i + 1], line[j]);
    }
    if i :| 0 <= i < |line| && Covers(line[i], at) {
      assert i == 0 || ByStart(line[0], line[i]);
    }
    if line != [] && line[0].validFrom <= at {
      var i := CoveringRow(line, at);
    }
  }
}
