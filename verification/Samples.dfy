/** One concrete database and one concrete bundle for the examples: a transfer of 2000.00 between two accounts,
  against a fallback threshold of 1000.00 and no policy rules. */
module Samples {
  import opened Wrappers
  import opened Ordering
  import opened Money
  import opened Calendar
  import opened LedgerTables
  import opened LedgerTools
  import opened LedgerInvariants
  import opened ProposalLifecycle

  const DAY: Day := Date(2026, 1, 5)

  const TRANSFER := Bundle(
    "bank", "42", Timestamp(DAY, 0), "transfer",
    [Posting("cash", -2000.0, "-2000.00", "USD", None), Posting("savings", 2000.0, "2000.00", "USD", None)],
    "entity-default", None, None, false, None, false, "c")

  const START := Db({"cash", "savings"}, {"entity-default"}, [], 10000000, map[], [], [], [], [], 1)

  /** A database that accepts the same transfer without approval. */
  const LENIENT := START.(fallbackThreshold := 100000000)

  /** The same transfer recorded again under another key. */
  const REPEAT := TRANSFER.(externalId := "43")

  const POLICY := PolicyDecision(true, 10000000, 1, None)

  lemma SampleUnits()
    ensures Units(TRANSFER.postings[0]) == -20000000 && Units(TRANSFER.postings[1]) == 20000000
  {
    assert -2000.0 * 10000.0 == (-20000000) as real && 2000.0 * 10000.0 == 20000000 as real;
    RoundInteger(-20000000);
    RoundInteger(20000000);
  }

  lemma TwoTerms(f: Posting -> int, postings: seq<Posting>)
    requires |postings| == 2
    ensures SumBy(f, postings) == f(postings[0]) + f(postings[1])
  {
    assert postings[1..][1..] == [];
    assert SumBy(f, postings[1..]) == f(postings[1]) + SumBy(f, postings[1..][1..]);
  }

  lemma SampleImpact()
    ensures AllUsd(TRANSFER.postings) && IsBalanced(TRANSFER.postings)
    ensures Impact(TRANSFER.postings) == 20000000
  {
    SampleUnits();
    TwoTerms(Units, TRANSFER.postings);
    TwoTerms(AbsoluteUnits, TRANSFER.postings);
    RoundInteger(20000000);
    assert 40000000 as real / 2.0 == 20000000 as real;
  }

  /** The transfer is over the threshold, so recording it proposes it. */
  lemma SampleProposes()
    ensures Fresh(START) && AllUsd(TRANSFER.postings) && IsBalanced(TRANSFER.postings)
    ensures Insertable(START, TRANSFER)
    ensures GateOf(START, TRANSFER) == Propose(POLICY, None)
  {
    SampleImpact();
    assert Sort(RuleLe, ActiveRules([])) == [];
    assert DuplicateMatches(START, TRANSFER.date, TRANSFER.postings) == {};
  }

  /** Under the lenient threshold both transfers pass the gate. */
  lemma SamplePasses()
    ensures Fresh(LENIENT) && AllUsd(TRANSFER.postings) && IsBalanced(TRANSFER.postings)
    ensures Insertable(LENIENT, TRANSFER) && Insertable(LENIENT, REPEAT)
    ensures GateOf(LENIENT, TRANSFER) == Direct && GateOf(LENIENT, REPEAT) == Direct
  {
    SampleImpact();
    assert Sort(RuleLe, ActiveRules([])) == [];
    assert DuplicateMatches(LENIENT, TRANSFER.date, TRANSFER.postings) == {};
  }

  /** Recording a bundle the gate proposes, under a new key, adds its proposal and nothing else. */
  lemma RecordProposes(db: Db, b: Bundle)
    requires Inv(db) && AllUsd(b.postings) && IsBalanced(b.postings) && GateOf(db, b).Propose?
    requires b.entityId in db.entities
    requires FindRow(db.ledger, b.sourceSystem, b.externalId).None?
    requires FindProposal(db.proposals, b.sourceSystem, b.externalId).None?
    ensures Record(db, b).0 == WithProposal(db, b, GateOf(db, b).policy, GateOf(db, b).duplicates)
  {
    hide GateOf, WithProposal, AnswerWithProposal;
    WriteProposalShape(db, b, GateOf(db, b).policy, GateOf(db, b).duplicates);
  }
}
