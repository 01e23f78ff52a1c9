/** What the approval gate decides, said without its loops and queries: impact, the governing rule, and
  duplicate risk (src/capital_os/domain/approval/policy.py, policy/service.py, ledger/repository.py). */
module ApprovalGate {
  import opened Wrappers
  import opened Ordering
  import opened Money
  import opened Calendar
  import opened DecimalText
  import opened LedgerTables
  import opened LedgerTools

  // ------------------------------------------------------------------ impact

  function PositiveUnits(p: Posting): int {
    if Units(p) > 0 then Units(p) else 0
  }

  lemma {:induction false} AbsoluteIsTwicePositive(postings: seq<Posting>)
    ensures SumBy(AbsoluteUnits, postings) == 2 * SumBy(PositiveUnits, postings) - SumBy(Units, postings)
  {
    if postings != [] {
      AbsoluteIsTwicePositive(postings[1..]);
    }
  }

  /** For a balanced bundle the halving never rounds: the impact is the total of the positive legs. */
  lemma ImpactExact(postings: seq<Posting>)
    requires IsBalanced(postings)
    ensures Impact(postings) == SumBy(PositiveUnits, postings)
  {
    AbsoluteIsTwicePositive(postings);
    var positive := SumBy(PositiveUnits, postings);
    assert SumBy(AbsoluteUnits, postings) as real / 2.0 == positive as real;
    RoundInteger(positive);
  }

  // ------------------------------------------------------------------ the governing rule

  predicate RuleIdsUnique(rules: seq<PolicyRule>) {
    forall i, j :: 0 <= i < j < |rules| ==> rules[i].ruleId != rules[j].ruleId
  }

  /** An active rule that matches the bundle. */
  predicate Applies(db: Db, rule: PolicyRule, b: Bundle) {
    rule in db.rules && rule.active && RuleMatches(db, rule, b)
  }

  /** The applicable rule of least priority number, and least rule id among those. */
  ghost predicate Governs(db: Db, rule: PolicyRule, b: Bundle) {
    Applies(db, rule, b) && forall other :: Applies(db, other, b) ==> RuleLe(rule, other)
  }

  lemma RuleLePreorder()
    ensures Preorder(RuleLe)
  {
    StrLeLaws();
  }

  lemma {:induction false} ActiveListed(rules: seq<PolicyRule>, r: PolicyRule)
    ensures r in ActiveRules(rules) <==> r in rules && r.active
  {
    if rules != [] {
      ActiveListed(rules[1..], r);
    }
  }

  lemma {:induction false} FirstMatchMeaning(db: Db, ordered: seq<PolicyRule>, b: Bundle)
    requires SortedBy(RuleLe, ordered)
    requires forall r :: RuleLe(r, r)
    ensures var first := FirstMatch(db, ordered, b);
            && (first.None? ==> forall r :: r in ordered ==> !RuleMatches(db, r, b))
            && (first.Some? ==>
                  && first.value in ordered && RuleMatches(db, first.value, b)
                  && forall r :: r in ordered && RuleMatches(db, r, b) ==> RuleLe(first.value, r))
  {
    hide RuleMatches, RuleLe;
    if ordered != [] {
      assert ordered == [ordered[0]] + ordered[1..];
      if RuleMatches(db, ordered[0], b) {
        forall r | r in ordered
          ensures RuleLe(ordered[0], r)
        {
          var i :| 0 <= i < |ordered| && ordered[i] == r;
        }
      } else {
        FirstMatchMeaning(db, ordered[1..], b);
      }
    }
  }

  lemma OrderedRules(rules: seq<PolicyRule>)
    ensures var ordered := Sort(RuleLe, ActiveRules(rules));
            && SortedBy(RuleLe, ordered)
            && forall r :: r in ordered <==> r in rules && r.active
  {
    RuleLePreorder();
    SortCorrect(RuleLe, ActiveRules(rules));
    var ordered := Sort(RuleLe, ActiveRules(rules));
    hide RuleLe, Sort, SortedBy;
    forall r
      ensures r in ordered <==> r in rules && r.active
    {
      ActiveListed(rules, r);
      assert r in ordered <==> r in multiset(ordered);
    }
  }

  /** The evaluation loop stops at the governing rule, and at none exactly when no rule applies. */
  lemma EvaluationFindsGoverningRule(db: Db, b: Bundle)
    ensures var found := FirstMatch(db, Sort(RuleLe, ActiveRules(db.rules)), b);
            && (found.None? <==> forall r :: !Applies(db, r, b))
            && (found.Some? ==> Governs(db, found.value, b))
  {
    hide RuleMatches, Sort, SortedBy;
    StrLeLaws();
    assert forall r :: RuleLe(r, r);
    hide RuleLe, StrLe;
    OrderedRules(db.rules);
    FirstMatchMeaning(db, Sort(RuleLe, ActiveRules(db.rules)), b);
    var found := FirstMatch(db, Sort(RuleLe, ActiveRules(db.rules)), b);
    assert found.Some? ==> Applies(db, found.value, b);
  }

  /** Rule ids are a primary key, so at most one rule governs. */
  lemma GoverningRuleUnique(db: Db, r: PolicyRule, s: PolicyRule, b: Bundle)
    requires RuleIdsUnique(db.rules) && Governs(db, r, b) && Governs(db, s, b)
    ensures r == s
  {
    hide RuleMatches;
    StrLeLaws();
    assert RuleLe(r, s) && RuleLe(s, r);
    assert r.ruleId == s.ruleId;
  }

  // ------------------------------------------------------------------ what it takes to match

  function Seconds(t: Timestamp): int {
    86400 * Ordinal(t.day) + t.second
  }

  function SameSource(b: Bundle): LedgerRow -> bool {
    (r: LedgerRow) => r.sourceSystem == b.sourceSystem && r.entityId == b.entityId
  }

  function SameSourceBetween(b: Bundle, low: int, high: int): LedgerRow -> bool {
    (r: LedgerRow) => r.sourceSystem == b.sourceSystem && r.entityId == b.entityId && low <= Seconds(r.date) <= high
  }

  /** An active rule of the table whose criteria are absent, empty or the bundle's own, and which, if it limits
    velocity, has seen its number of rows in its window of seconds up to the bundle, or at any time when the window
    holds none. */
  predicate Matches(db: Db, rule: PolicyRule, b: Bundle) {
    && rule in db.rules && rule.active
    && (rule.toolName.None? || rule.toolName.value in ["", "record_transaction_bundle"])
    && (rule.entityId.None? || rule.entityId.value in ["", b.entityId])
    && (rule.category.None? || rule.category.value == "" || rule.category == b.category)
    && (rule.riskBand.None? || rule.riskBand.value == "" || rule.riskBand == b.riskBand)
    && (rule.velocityCount.Some? && rule.velocityWindow.Some? ==>
          var now := Seconds(b.date);
          var recent := |Places(SameSourceBetween(b, now - rule.velocityWindow.value, now), db.ledger)|;
          (if recent > 0 then recent else |Places(SameSource(b), db.ledger)|) >= rule.velocityCount.value)
  }

  lemma {:induction false} RowsCounted(ledger: seq<LedgerRow>, b: Bundle, low: int, high: int)
    ensures RowsOf(ledger, b.sourceSystem, b.entityId, low, high) == |Places(SameSourceBetween(b, low, high), ledger)|
    ensures RowsEver(ledger, b.sourceSystem, b.entityId) == |Places(SameSource(b), ledger)|
  {
    hide Ordinal, Places;
    if ledger == [] {
      NoPlaces(SameSource(b));
      NoPlaces(SameSourceBetween(b, low, high));
    } else {
      RowsCounted(ledger[1..], b, low, high);
      PlacesHead(SameSource(b), ledger);
      PlacesHead(SameSourceBetween(b, low, high), ledger);
    }
  }

  lemma AppliesExactly(db: Db, rule: PolicyRule, b: Bundle)
    ensures Applies(db, rule, b) <==> Matches(db, rule, b)
  {
    hide Places, RowsOf, RowsEver, Ordinal;
    if rule.velocityWindow.Some? {
      RowsCounted(db.ledger, b, Seconds(b.date) - rule.velocityWindow.value, Seconds(b.date));
    }
    assert Instant(b.date) == Seconds(b.date);
  }

  /** The governing rule is the matching rule of least priority number, and of least id in string order among those. */
  lemma GovernsExactly(db: Db, rule: PolicyRule, b: Bundle)
    ensures Governs(db, rule, b) <==>
            && Matches(db, rule, b)
            && forall other :: Matches(db, other, b) ==>
                 rule.priority < other.priority || (rule.priority == other.priority && StrLe(rule.ruleId, other.ruleId))
  {
    hide Applies, Matches, StrLe;
    forall other ensures Applies(db, other, b) <==> Matches(db, other, b) {
      AppliesExactly(db, other, b);
    }
  }

  /** No approval is forced by policy: no rule applies and the impact is within the fallback threshold, or the
    governing rule has no velocity limit and the impact is within its threshold. */
  ghost predicate PolicyAdmits(db: Db, b: Bundle) {
    var impact := Impact(b.postings);
    || (impact <= db.fallbackThreshold && forall r :: !Applies(db, r, b))
    || (exists r :: Governs(db, r, b) && r.velocityCount.None? && impact <= r.threshold)
  }

  lemma PolicyExactly(db: Db, b: Bundle, force: bool)
    requires RuleIdsUnique(db.rules)
    ensures EvaluatePolicy(db, b, Impact(b.postings), force).approvalRequired <==> force || !PolicyAdmits(db, b)
  {
    hide Impact, Governs, Applies, Sort, FirstMatch;
    EvaluationFindsGoverningRule(db, b);
    var found := FirstMatch(db, Sort(RuleLe, ActiveRules(db.rules)), b);
    if found.Some? {
      GovernedOnce(db, b, found.value);
    } else {
      NothingGoverns(db, b);
    }
  }

  lemma GovernedOnce(db: Db, b: Bundle, rule: PolicyRule)
    requires RuleIdsUnique(db.rules) && Governs(db, rule, b)
    ensures Applies(db, rule, b)
    ensures forall r :: Governs(db, r, b) ==> r == rule
  {
    hide Applies;
    forall r | Governs(db, r, b)
      ensures r == rule
    {
      GoverningRuleUnique(db, r, rule, b);
    }
  }

  lemma NothingGoverns(db: Db, b: Bundle)
    requires forall r :: !Applies(db, r, b)
    ensures forall r :: !Governs(db, r, b)
  {
  }

  // ------------------------------------------------------------------ duplicate risk

  /** The (account, amount) pairs one transaction posted. */
  function RowKeys(rows: seq<PostingRow>, transactionId: nat): set<(string, int)> {
    set p | p in rows && p.transactionId == transactionId :: (p.accountId, p.amount)
  }

  function TextOf(key: (string, int)): string {
    KeyText(key.0, key.1)
  }

  lemma {:induction false} TextsCount(keys: set<(string, int)>)
    ensures |set k | k in keys :: TextOf(k)| == |keys|
    decreases |keys|
  {
    var texts := set k | k in keys :: TextOf(k);
    if keys == {} {
      assert texts == {};
    } else {
      var key :| key in keys;
      var others := keys - {key};
      var rest := set k | k in others :: TextOf(k);
      TextsCount(others);
      assert texts == rest + {TextOf(key)} by {
        assert keys == others + {key};
      }
      forall k | k in others
        ensures TextOf(k) != TextOf(key)
      {
        if TextOf(k) == TextOf(key) {
          KeyTextInjective(k.0, k.1, key.0, key.1);
        }
      }
    }
  }

  lemma MatchedTextsShared(rows: seq<PostingRow>, transactionId: nat, keys: set<(string, int)>)
    ensures MatchedTexts(rows, transactionId, keys) == set k | k in keys * RowKeys(rows, transactionId) :: TextOf(k)
  {
    var shared := keys * RowKeys(rows, transactionId);
    var texts := set k | k in shared :: TextOf(k);
    forall t | t in texts
      ensures t in MatchedTexts(rows, transactionId, keys)
    {
      var k :| k in shared && TextOf(k) == t;
      var p :| p in rows && p.transactionId == transactionId && (p.accountId, p.amount) == k;
    }
    forall t | t in MatchedTexts(rows, transactionId, keys)
      ensures t in texts
    {
      var p :| p in rows && p.transactionId == transactionId && (p.accountId, p.amount) in keys
          && KeyText(p.accountId, p.amount) == t;
      assert (p.accountId, p.amount) in shared && TextOf((p.accountId, p.amount)) == t;
    }
  }

  /** The counting query matches a transaction exactly when it posted every required pair. */
  lemma CountingQueryIsContainment(rows: seq<PostingRow>, transactionId: nat, keys: set<(string, int)>)
    ensures |MatchedTexts(rows, transactionId, keys)| == |keys| <==> keys <= RowKeys(rows, transactionId)
  {
    hide MatchedTexts, RowKeys, TextOf;
    var shared := keys * RowKeys(rows, transactionId);
    MatchedTextsShared(rows, transactionId, keys);
    TextsCount(shared);
    SubsetSize(shared, keys);
    assert shared <= keys && (keys <= RowKeys(rows, transactionId) ==> shared == keys);
    assert shared == keys ==> keys <= RowKeys(rows, transactionId);
  }

  /** An earlier row of the same UTC day that posted every (account, amount) pair of the bundle. */
  predicate Duplicates(db: Db, r: LedgerRow, date: Timestamp, keys: set<(string, int)>) {
    r in db.ledger && r.date.day == date.day && keys != {} && keys <= RowKeys(db.postings, r.transactionId)
  }

  /** A row covers a bundle when it is of the same day and has, for every leg of a bundle with legs, a posting on that
    account of that amount in units. */
  lemma DuplicatesMeaning(db: Db, r: LedgerRow, b: Bundle)
    ensures Duplicates(db, r, b.date, MatchKeys(b.postings)) <==>
            && r in db.ledger && r.date.day == b.date.day && b.postings != []
            && forall p :: p in b.postings ==>
                 exists q :: q in db.postings && q.transactionId == r.transactionId
                             && q.accountId == p.accountId && q.amount == Normalize(p.amount)
  {
    hide Normalize;
    var keys := MatchKeys(b.postings);
    if b.postings != [] {
      assert b.postings[0] in b.postings && (b.postings[0].accountId, Units(b.postings[0])) in keys;
    }
    if keys <= RowKeys(db.postings, r.transactionId) {
      forall p | p in b.postings
        ensures exists q :: q in db.postings && q.transactionId == r.transactionId
                            && q.accountId == p.accountId && q.amount == Normalize(p.amount)
      {
        assert (p.accountId, Units(p)) in RowKeys(db.postings, r.transactionId);
      }
    }
  }

  lemma DuplicatesExactly(db: Db, b: Bundle)
    ensures DuplicateMatches(db, b.date, b.postings) == {} <==>
            forall r :: !Duplicates(db, r, b.date, MatchKeys(b.postings))
  {
    var keys := MatchKeys(b.postings);
    forall r | r in db.ledger
      ensures |MatchedTexts(db.postings, r.transactionId, keys)| == |keys| <==>
                keys <= RowKeys(db.postings, r.transactionId)
    {
      CountingQueryIsContainment(db.postings, r.transactionId, keys);
    }
    hide MatchedTexts, RowKeys, MatchKeys;
    if r :| Duplicates(db, r, b.date, keys) {
      assert r.transactionId in DuplicateMatches(db, b.date, b.postings);
    }
    if id :| id in DuplicateMatches(db, b.date, b.postings) {
      var r :| r in db.ledger && r.transactionId == id && r.date.day == b.date.day
               && |MatchedTexts(db.postings, r.transactionId, keys)| == |keys|;
      assert Duplicates(db, r, b.date, keys);
    }
  }

  // ------------------------------------------------------------------ the gate as a whole

  predicate PeriodOpen(db: Db, key: PeriodKey, entityId: string) {
    (key, entityId) !in db.periods || db.periods[(key, entityId)] == Open
  }

  /** A bundle may be committed without approval. */
  ghost predicate GateOpen(db: Db, b: Bundle) {
    && PeriodOpen(db, PeriodOf(b.date), b.entityId)
    && PolicyAdmits(db, b)
    && forall r :: !Duplicates(db, r, b.date, MatchKeys(b.postings))
  }

  /** A proposal's threshold and quorum are the governing rule's, and the fallback's when none governs. */
  lemma QuorumFromGoverningRule(db: Db, b: Bundle)
    requires RuleIdsUnique(db.rules) && GateOf(db, b).Propose?
    ensures var policy := GateOf(db, b).policy;
            && (forall rule :: Governs(db, rule, b) ==>
                  policy.threshold == rule.threshold && policy.required == Max(1, rule.requiredApprovals)
                  && policy.matchedRule == Some(rule.ruleId))
            && ((forall rule :: !Applies(db, rule, b)) ==>
                  policy.threshold == db.fallbackThreshold && policy.required == 1 && policy.matchedRule == None)
  {
    hide Impact, Governs, Applies, Sort, FirstMatch, DuplicateMatches;
    EvaluationFindsGoverningRule(db, b);
    var found := FirstMatch(db, Sort(RuleLe, ActiveRules(db.rules)), b);
    if found.Some? {
      GovernedOnce(db, b, found.value);
    } else {
      NothingGoverns(db, b);
    }
  }

  /** Whatever passes the gate was fit to pass, even if two rules shared an id. */
  lemma GateSound(db: Db, b: Bundle)
    requires GateOf(db, b) == Direct
    ensures GateOpen(db, b)
  {
    hide Impact, Governs, Applies, Sort, FirstMatch, DuplicateMatches, Duplicates, MatchKeys;
    EvaluationFindsGoverningRule(db, b);
    DuplicatesExactly(db, b);
  }

  /** The gate lets a bundle through exactly when its period is open or absent, the governing rule admits its
    impact without a velocity limit, and no earlier row of its day covers it; it refuses one exactly in a closed period
    without an adjusting entry or a locked one without an override; every other bundle it proposes. */
  lemma GateExactly(db: Db, b: Bundle)
    requires RuleIdsUnique(db.rules)
    ensures GateOf(db, b) == Direct <==> GateOpen(db, b)
    ensures var period := (PeriodOf(b.date), b.entityId);
            GateOf(db, b).Refuse? <==>
              && period in db.periods
              && ((db.periods[period] == Closed && !b.isAdjusting) || (db.periods[period] == Locked && !b.overrideLock))
  {
    hide EvaluatePolicy, DuplicateMatches, PolicyAdmits, Duplicates, Impact, MatchKeys;
    PolicyExactly(db, b, false);
    PolicyExactly(db, b, true);
    DuplicatesExactly(db, b);
  }
}
