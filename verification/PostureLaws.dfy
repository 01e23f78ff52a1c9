/** What the consolidated posture promises: the whole is the sum of its parts, the order of the request does not
  matter, and the whole's ratio lies between those of its parts exactly when the reserve targets allow it. */
module PostureLaws {
  import opened Wrappers
  import opened Ordering
  import opened Money
  import opened Posture

  // ------------------------------------------------------------------ the whole and its parts

  function NetIn(r: EntityReport): int { r.transferNet }
  function LiquidityIn(r: EntityReport): int { r.metrics.liquidity }
  function TargetIn(r: EntityReport): int { r.metrics.reserveTarget }

  lemma {:induction false} ReportTotal(p: Payload, ids: seq<string>, reports: seq<EntityReport>,
                                       f: EntityReport -> int, g: string -> int)
    requires |reports| == |ids|
    requires forall k :: 0 <= k < |ids| ==> f(reports[k]) == g(ids[k])
    ensures SumBy(f, reports) == SumBy(g, ids)
  {
    if ids != [] {
      ReportTotal(p, ids[1..], reports[1..], f, g);
    }
  }

  /** In every report the entities' transfer nets cancel, and the consolidated liquidity and reserve target are the
    totals of the entities' own, which for liquidity is also the total before any transfer is taken out. */
  lemma WholeIsSumOfParts(p: Payload, r: Report)
    requires ValidPayload(p) && IsReport(p, r)
    ensures SumBy(NetIn, r.entities) == 0
    ensures r.consolidated.liquidity == SumBy(LiquidityIn, r.entities) == SumBy(LiquidityOf, p.entities)
    ensures r.consolidated.reserveTarget == SumBy(TargetIn, r.entities) == SumBy(TargetOf, p.entities)
  {
    hide Ratio, Find, Sort, Net, ValidPayload, SumBy;
    var ids := r.entityIds;
    SortedSelection(p);
    forall k | 0 <= k < |ids|
      ensures NetIn(r.entities[k]) == NetOf(p.legs)(ids[k])
      ensures LiquidityIn(r.entities[k]) == NeutralOf(p)(ids[k])
      ensures TargetIn(r.entities[k]) == At(p.entities, TargetOf)(ids[k])
    {
      var e := Find(p.entities, ids[k]).value;
      AtFound(p.entities, ids[k], e, LiquidityOf);
      AtFound(p.entities, ids[k], e, TargetOf);
    }
    ReportTotal(p, ids, r.entities, NetIn, NetOf(p.legs));
    ReportTotal(p, ids, r.entities, LiquidityIn, NeutralOf(p));
    ReportTotal(p, ids, r.entities, TargetIn, At(p.entities, TargetOf));
    NetsCancel(p, ids);
    TransferNeutral(p, ids);
    SelectedTotal(p, ids, TargetOf);
    SumByAdds(TargetOf, MinimumOf, VolatilityOf, p.entities);
  }

  lemma AtFound(entities: seq<Entity>, id: string, e: Entity, figure: Entity -> int)
    requires Find(entities, id) == Some(e)
    ensures At(entities, figure)(id) == figure(e)
  {
  }

  lemma SortedSelection(p: Payload)
    requires ValidPayload(p)
    ensures multiset(Sort(StrLe, p.entityIds)) == multiset(p.entityIds)
  {
    SortedIds(p.entityIds);
  }

  // ------------------------------------------------------------------ what a report says

  function OnSide(id: string, direction: Direction): Leg -> int {
    (leg: Leg) => if leg.entityId == id && leg.direction == direction then leg.amount else 0
  }

  /** What an entity's own legs of one direction amount to. */
  function Moved(legs: seq<Leg>, id: string, direction: Direction): int {
    SumBy(OnSide(id, direction), legs)
  }

  lemma {:induction false} NetIsInLessOut(legs: seq<Leg>, id: string)
    ensures Net(legs, id) == Moved(legs, id, In) - Moved(legs, id, Out)
  {
    if legs != [] {
      NetIsInLessOut(legs[1..], id);
      var leg, f := legs[0], Keyed(LegEntity, Signed, id);
      assert SumBy(f, legs) == f(leg) + SumBy(f, legs[1..]);
      assert LegEntity(leg) == leg.entityId;
      assert f(leg) == if leg.entityId == id then Signed(leg) else 0;
      assert OnSide(id, In)(leg) == if leg.entityId == id && leg.direction == In then leg.amount else 0;
      assert OnSide(id, Out)(leg) == if leg.entityId == id && leg.direction == Out then leg.amount else 0;
    }
  }

  /** The figures of a posture in units: target and surplus, the ratio as the nearest integer to 10000 times liquidity
    over target, or zero without a target, and the band by the thresholds one half, one and one and a half. */
  ghost predicate AreMetrics(m: Metrics, liquidity: int, fixedBurn: int, variableBurn: int, minimum: int,
                             volatility: int) {
    && m.liquidity == liquidity && m.fixedBurn == fixedBurn && m.variableBurn == variableBurn
    && m.volatilityBuffer == volatility
    && m.reserveTarget == minimum + volatility
    && m.surplus == liquidity - (minimum + volatility)
    && (m.reserveTarget == 0 ==> m.ratio == 0)
    && (m.reserveTarget != 0 ==> IsNearestEven((10000 * liquidity) as real / m.reserveTarget as real, m.ratio))
    && (m.band == Critical <==> m.ratio < 5000)
    && (m.band == Elevated <==> 5000 <= m.ratio < 10000)
    && (m.band == Guarded <==> 10000 <= m.ratio < 15000)
    && (m.band == Stable <==> 15000 <= m.ratio)
  }

  lemma RatioUnits(liquidity: int, target: nat)
    requires target != 0
    ensures IsNearestEven((10000 * liquidity) as real / target as real, Ratio(liquidity, target))
  {
    var x, y := liquidity as real, target as real;
    assert x / y * 10000.0 == (10000.0 * x) / y;
    assert (10000 * liquidity) as real == 10000.0 * x;
  }

  lemma MetricsUnits(liquidity: int, fixedBurn: nat, variableBurn: nat, minimum: nat, volatility: nat)
    ensures AreMetrics(MetricsOf(liquidity, fixedBurn, variableBurn, minimum, volatility),
                       liquidity, fixedBurn, variableBurn, minimum, volatility)
  {
    if minimum + volatility != 0 {
      RatioUnits(liquidity, minimum + volatility);
    }
    hide IsNearestEven;
  }

  /** The k-th entity reported: it is the entity of the request with the k-th id, its net is what comes in on its legs
    less what goes out, and its metrics are those of its liquidity with what came in taken out and what went out put
    back. */
  lemma EntityFigures(p: Payload, r: Report, k: nat)
    requires ValidPayload(p) && IsReport(p, r) && k < |r.entities|
    ensures var x := r.entities[k];
            var e, came, went := x.entity, Moved(p.legs, r.entityIds[k], In), Moved(p.legs, r.entityIds[k], Out);
            && e in p.entities && e.entityId == r.entityIds[k]
            && x.transferNet == came - went
            && AreMetrics(x.metrics, e.liquidity - came + went, e.fixedBurn, e.variableBurn, e.minimumReserve,
                          e.volatilityBuffer)
  {
    hide ValidPayload, AreMetrics, MetricsOf, Net, Moved, Sort, IsPair, Whole;
    var e := Find(p.entities, r.entityIds[k]).value;
    NetIsInLessOut(p.legs, e.entityId);
    MetricsUnits(e.liquidity - Net(p.legs, e.entityId), e.fixedBurn, e.variableBurn, e.minimumReserve,
                 e.volatilityBuffer);
  }

  /** The consolidated figures are the metrics of the totals over all entities, and the ids stand in string order, each
    once. */
  lemma ConsolidatedFigures(p: Payload, r: Report)
    requires ValidPayload(p) && IsReport(p, r)
    ensures AreMetrics(r.consolidated,
                       SumBy((e: Entity) => e.liquidity, p.entities), SumBy((e: Entity) => e.fixedBurn, p.entities),
                       SumBy((e: Entity) => e.variableBurn, p.entities),
                       SumBy((e: Entity) => e.minimumReserve, p.entities),
                       SumBy((e: Entity) => e.volatilityBuffer, p.entities))
    ensures forall i, j :: 0 <= i < j < |r.entityIds| ==> StrLt(r.entityIds[i], r.entityIds[j])
    ensures forall id :: id in r.entityIds <==> id in p.entityIds
  {
    hide SumBy, AreMetrics, MetricsOf, IsPair, Sort, StrLe;
    SumNonNegative(p.entities);
    MetricsUnits(SumBy(LiquidityOf, p.entities), SumBy(FixedOf, p.entities), SumBy(VariableOf, p.entities),
                 SumBy(MinimumOf, p.entities), SumBy(VolatilityOf, p.entities));
    SumByAgree(LiquidityOf, (e: Entity) => e.liquidity, p.entities);
    SumByAgree(FixedOf, (e: Entity) => e.fixedBurn, p.entities);
    SumByAgree(VariableOf, (e: Entity) => e.variableBurn, p.entities);
    SumByAgree(MinimumOf, (e: Entity) => e.minimumReserve, p.entities);
    SumByAgree(VolatilityOf, (e: Entity) => e.volatilityBuffer, p.entities);
    SortedIds(p.entityIds);
  }

  /** A transfer of the request: money leaves one entity and enters another. */
  ghost predicate Transfers(legs: seq<Leg>, id: string, source: string, target: string, amount: int) {
    && Leg(id, source, target, Out, amount) in legs
    && Leg(id, target, source, In, amount) in legs
  }

  /** The pairs reported are exactly the transfers of the request, each once, in transfer id order, with the two
    entities in string order. */
  lemma PairFigures(p: Payload, r: Report, x: Pair)
    requires ValidPayload(p) && IsReport(p, r)
    ensures x in r.pairs <==>
            StrLt(x.entityA, x.entityB)
            && (Transfers(p.legs, x.transferId, x.entityA, x.entityB, x.amount)
                || Transfers(p.legs, x.transferId, x.entityB, x.entityA, x.amount))
    ensures forall i, j :: 0 <= i < j < |r.pairs| ==> StrLt(r.pairs[i].transferId, r.pairs[j].transferId)
  {
    hide StrLe, Sort, Whole, ValidPayload, ReportOf, LegsFor, PairOf;
    if x in r.pairs {
      var leg :| leg in p.legs && LegsFor(p.legs, leg.transferId) != [] && x == PairOf(LegsFor(p.legs, leg.transferId));
      PairGroup(p, leg);
      PairSays(LegsFor(p.legs, leg.transferId));
    }
    if StrLt(x.entityA, x.entityB) {
      if Transfers(p.legs, x.transferId, x.entityA, x.entityB, x.amount) {
        PairOfLeg(p, Leg(x.transferId, x.entityA, x.entityB, Out, x.amount), x);
      } else if Transfers(p.legs, x.transferId, x.entityB, x.entityA, x.amount) {
        PairOfLeg(p, Leg(x.transferId, x.entityB, x.entityA, Out, x.amount), x);
      }
    }
  }

  /** Two mirrored legs are a transfer between the two entities of their pair. */
  lemma PairSays(group: seq<Leg>)
    requires Paired(group) && group[0].entityId != group[0].counterpartyId && group[0].transferId == group[1].transferId
    ensures var x := PairOf(group);
            && StrLt(x.entityA, x.entityB)
            && (Transfers(group, x.transferId, x.entityA, x.entityB, x.amount)
                || Transfers(group, x.transferId, x.entityB, x.entityA, x.amount))
  {
    StrLeLaws();
    hide StrLe;
    var g, h := group[0], group[1];
    assert g == Leg(g.transferId, g.entityId, g.counterpartyId, g.direction, g.amount);
    assert h == Leg(g.transferId, g.counterpartyId, g.entityId, h.direction, g.amount);
    assert g in group && h in group;
  }

  lemma PairOfLeg(p: Payload, leg: Leg, x: Pair)
    requires ValidPayload(p) && leg in p.legs && leg.transferId == x.transferId && leg.amount == x.amount
    requires StrLt(x.entityA, x.entityB)
    requires (leg.entityId == x.entityA && leg.counterpartyId == x.entityB)
             || (leg.entityId == x.entityB && leg.counterpartyId == x.entityA)
    ensures IsPair(p.legs, x)
  {
    StrLeLaws();
    hide StrLe, ValidPayload, LegsFor;
    PairGroup(p, leg);
    var group := LegsFor(p.legs, leg.transferId);
    assert leg == group[0] || leg == group[1];
    assert x == PairOf(group);
  }

  lemma PairGroup(p: Payload, leg: Leg)
    requires ValidPayload(p) && leg in p.legs
    ensures var group := LegsFor(p.legs, leg.transferId);
            && Paired(group) && leg in group
            && forall m :: m in group ==>
                 m in p.legs && m.transferId == leg.transferId && m.entityId != m.counterpartyId
  {
    hide SelectionMatches;
    var id := leg.transferId;
    LegListed(p.legs, id, leg);
    forall m | m in LegsFor(p.legs, id) ensures m in p.legs && m.transferId == id && m.entityId != m.counterpartyId {
      LegListed(p.legs, id, m);
    }
  }

  // ------------------------------------------------------------------ the mediant

  /** The terms' ratios f/g cannot all exceed l/t when the totals' does not. */
  lemma {:induction false} AllAbove<T>(f: T -> int, g: T -> int, s: seq<T>, l: int, t: int)
    requires s != [] && forall x :: x in s ==> f(x) * t > l * g(x)
    ensures SumBy(f, s) * t > l * SumBy(g, s)
  {
    var a, b := SumBy(f, s[1..]), SumBy(g, s[1..]);
    assert s[0] in s && f(s[0]) * t > l * g(s[0]);
    assert (f(s[0]) + a) * t == f(s[0]) * t + a * t && l * (g(s[0]) + b) == l * g(s[0]) + l * b;
    if |s| == 1 {
      assert a == 0 && b == 0;
    } else {
      AllAbove(f, g, s[1..], l, t);
    }
  }

  lemma {:induction false} AllBelow<T>(f: T -> int, g: T -> int, s: seq<T>, l: int, t: int)
    requires s != [] && forall x :: x in s ==> f(x) * t < l * g(x)
    ensures SumBy(f, s) * t < l * SumBy(g, s)
  {
    var a, b := SumBy(f, s[1..]), SumBy(g, s[1..]);
    assert s[0] in s && f(s[0]) * t < l * g(s[0]);
    assert (f(s[0]) + a) * t == f(s[0]) * t + a * t && l * (g(s[0]) + b) == l * g(s[0]) + l * b;
    if |s| == 1 {
      assert a == 0 && b == 0;
    } else {
      AllBelow(f, g, s[1..], l, t);
    }
  }

  /** Some term's ratio is at most, and some term's at least, the ratio of the totals. */
  lemma Mediant<T>(f: T -> int, g: T -> int, s: seq<T>) returns (low: T, high: T)
    requires s != []
    ensures low in s && f(low) * SumBy(g, s) <= SumBy(f, s) * g(low)
    ensures high in s && f(high) * SumBy(g, s) >= SumBy(f, s) * g(high)
  {
    var l, t := SumBy(f, s), SumBy(g, s);
    if forall x :: x in s ==> f(x) * t > l * g(x) {
      AllAbove(f, g, s, l, t);
      assert false;
    }
    if forall x :: x in s ==> f(x) * t < l * g(x) {
      AllBelow(f, g, s, l, t);
      assert false;
    }
    low :| low in s && f(low) * t <= l * g(low);
    high :| high in s && f(high) * t >= l * g(high);
  }

  lemma PositiveProduct(a: real, b: real)
    requires a > 0.0 && b > 0.0
    ensures a * b > 0.0
  {
  }

  lemma QuotientOrder(x: real, t: real, y: real, u: real)
    requires t > 0.0 && u > 0.0 && (x * t) * u <= (y * u) * t
    ensures x <= y
  {
    var both := t * u;
    PositiveProduct(t, u);
    assert (x - y) * both == (x * t) * u - (y * u) * t;
    if x > y {
      PositiveProduct(x - y, both);
    }
  }

  lemma QuotientTimes(a: real, b: real)
    requires b > 0.0
    ensures a / b * b == a
  {
  }

  lemma RealProduct(a: int, b: int)
    ensures (a * b) as real == a as real * b as real
  {
  }

  lemma RatioOrder(l: int, t: nat, m: int, u: nat)
    requires t > 0 && u > 0 && l * u <= m * t
    ensures Ratio(l, t) <= Ratio(m, u)
  {
    hide RoundHalfEven;
    var x, y := l as real / t as real, m as real / u as real;
    QuotientTimes(l as real, t as real);
    QuotientTimes(m as real, u as real);
    RealProduct(l, u);
    RealProduct(m, t);
    QuotientOrder(x, t as real, y, u as real);
    RoundMonotone(x * 10000.0, y * 10000.0);
  }

  // ------------------------------------------------------------------ bands without division or rounding

  /** Rounding reaches an even number exactly from half a unit below it. */
  lemma ReachesEven(x: real, n: int)
    requires n % 2 == 0
    ensures RoundHalfEven(x) >= n <==> x >= n as real - 0.5
  {
  }

  lemma RatioReaches(l: int, t: nat, n: int)
    requires t > 0 && n % 2 == 0
    ensures Ratio(l, t) >= n <==> 20000 * l >= (2 * n - 1) * t
  {
    hide RoundHalfEven;
    var x, u := l as real / t as real, t as real;
    ReachesEven(x * 10000.0, n);
    QuotientTimes(l as real, u);
    ScaledOrder(x * 10000.0, n as real - 0.5, u);
    Regroup(x, n as real, u);
    RealProduct(2 * n - 1, t);
    RealProduct(20000, l);
    assert (2 * n - 1) as real == 2.0 * (n as real) - 1.0;
  }

  lemma Regroup(x: real, n: real, u: real)
    ensures 2.0 * ((x * 10000.0) * u) == 20000.0 * (x * u)
    ensures 2.0 * ((n - 0.5) * u) == (2.0 * n - 1.0) * u
  {
  }

  lemma ScaledOrder(a: real, b: real, t: real)
    requires t > 0.0
    ensures a >= b <==> a * t >= b * t
  {
    if a > b {
      PositiveProduct(a - b, t);
    } else if a < b {
      PositiveProduct(b - a, t);
    }
  }

  /** The risk band in integers: for a positive target t and liquidity l, elevated from 9999 t, guarded from 19999 t and
    stable from 29999 t, all against 20000 l. */
  lemma BandsExactly(l: int, t: nat)
    requires t > 0
    ensures BandRank(Band(Ratio(l, t))) >= 1 <==> 20000 * l >= 9999 * t
    ensures BandRank(Band(Ratio(l, t))) >= 2 <==> 20000 * l >= 19999 * t
    ensures BandRank(Band(Ratio(l, t))) >= 3 <==> 20000 * l >= 29999 * t
  {
    hide Ratio;
    RatioReaches(l, t, 5000);
    RatioReaches(l, t, 10000);
    RatioReaches(l, t, 15000);
  }

  // ------------------------------------------------------------------ where the whole lies

  /** The whole's ratio and band lie between those of some two entities. */
  ghost predicate Between(p: Payload) {
    exists a, b :: a in p.entities && b in p.entities && Brackets(p, a, b)
  }

  predicate Brackets(p: Payload, a: Entity, b: Entity) {
    var low, whole, high := ReportOf(p, a).metrics, Whole(p.entities), ReportOf(p, b).metrics;
    && low.ratio <= whole.ratio <= high.ratio
    && BandRank(low.band) <= BandRank(whole.band) <= BandRank(high.band)
  }

  lemma RatiosBracket(p: Payload, a: Entity, b: Entity)
    requires ReportOf(p, a).metrics.ratio <= Whole(p.entities).ratio <= ReportOf(p, b).metrics.ratio
    ensures Brackets(p, a, b)
  {
    BandMonotone(ReportOf(p, a).metrics.ratio, Whole(p.entities).ratio);
    BandMonotone(Whole(p.entities).ratio, ReportOf(p, b).metrics.ratio);
  }

  function NeutralIn(legs: seq<Leg>): Entity -> int {
    (e: Entity) => e.liquidity - Net(legs, e.entityId)
  }

  function NegatedNet(legs: seq<Leg>): Entity -> int {
    (e: Entity) => -Net(legs, e.entityId)
  }

  /** The transfer-neutral liquidities of the entities, in any listing, total their raw liquidities. */
  lemma NeutralTotal(p: Payload)
    requires ValidPayload(p)
    ensures SumBy(NeutralIn(p.legs), p.entities) == SumBy(LiquidityOf, p.entities)
  {
    var ids := IdsOf(p.entities);
    SameElementsSameMultiset(ids, p.entityIds);
    NetsCancel(p, ids);
    NegatedTotal(p.legs, ids);
    NegatedByEntity(p.legs, p.entities);
    SumByAdds(NeutralIn(p.legs), LiquidityOf, NegatedNet(p.legs), p.entities);
  }

  lemma {:induction false} NegatedByEntity(legs: seq<Leg>, entities: seq<Entity>)
    ensures SumBy(NegatedNet(legs), entities) == SumBy(Negated(legs), IdsOf(entities))
  {
    if entities != [] {
      assert IdsOf(entities)[1..] == IdsOf(entities[1..]);
      NegatedByEntity(legs, entities[1..]);
    }
  }

  lemma {:induction false} PositiveTargets(entities: seq<Entity>)
    requires forall e :: e in entities ==> TargetOf(e) > 0
    ensures entities != [] ==> SumBy(TargetOf, entities) > 0
  {
    if |entities| > 1 {
      PositiveTargets(entities[1..]);
    }
  }

  /** When every reserve target is positive, the consolidated ratio lies between two entities' ratios and its band
    between their bands, after all rounding. */
  lemma PositiveTargetsBracket(p: Payload)
    requires ValidPayload(p) && p.entities != []
    requires forall e :: e in p.entities ==> TargetOf(e) > 0
    ensures Between(p)
  {
    hide ValidPayload, Net, SumBy, Ratio, Brackets;
    NeutralTotal(p);
    PositiveTargets(p.entities);
    SumByAdds(TargetOf, MinimumOf, VolatilityOf, p.entities);
    var l, t := SumBy(NeutralIn(p.legs), p.entities), SumBy(TargetOf, p.entities);
    var low, high := Mediant(NeutralIn(p.legs), TargetOf, p.entities);
    RatioOrder(NeutralIn(p.legs)(low), TargetOf(low), l, t);
    RatioOrder(l, t, NeutralIn(p.legs)(high), TargetOf(high));
    RatiosBracket(p, low, high);
  }

  /** With no reserve target anywhere every ratio is zero. */
  lemma NoTargetsBracket(p: Payload)
    requires ValidPayload(p) && p.entities != []
    requires forall e :: e in p.entities ==> TargetOf(e) == 0
    ensures Between(p)
  {
    hide ValidPayload, Net, Brackets;
    SumByZero(TargetOf, p.entities);
    SumByAdds(TargetOf, MinimumOf, VolatilityOf, p.entities);
    RatiosBracket(p, p.entities[0], p.entities[0]);
  }

  // ------------------------------------------------------------------ and when it does not

  /** The payload with one entity holding, net of transfers, `amount` and every other holding nothing. */
  function AllHeldBy(p: Payload, z: Entity, amount: int): Payload {
    p.(entities := Held(p.legs, p.entities, z, amount))
  }

  function Held(legs: seq<Leg>, entities: seq<Entity>, z: Entity, amount: int): seq<Entity> {
    if entities == [] then []
    else
      var e := entities[0];
      [e.(liquidity := Net(legs, e.entityId) + if e == z then amount else 0)] + Held(legs, entities[1..], z, amount)
  }

  lemma {:induction false} HeldAt(legs: seq<Leg>, entities: seq<Entity>, z: Entity, amount: int)
    ensures var h := Held(legs, entities, z, amount);
            && |h| == |entities|
            && IdsOf(h) == IdsOf(entities)
            && (forall k :: 0 <= k < |h| ==>
                  h[k] == entities[k].(liquidity := Net(legs, entities[k].entityId)
                                                    + if entities[k] == z then amount else 0))
  {
    hide Net;
    if entities != [] {
      HeldAt(legs, entities[1..], z, amount);
      assert IdsOf(entities) == [entities[0].entityId] + IdsOf(entities[1..]);
    }
  }

  lemma {:induction false} HeldTargets(legs: seq<Leg>, entities: seq<Entity>, z: Entity, amount: int)
    ensures SumBy(TargetOf, Held(legs, entities, z, amount)) == SumBy(TargetOf, entities)
  {
    hide Net;
    if entities != [] {
      HeldTargets(legs, entities[1..], z, amount);
      assert Held(legs, entities, z, amount)[1..] == Held(legs, entities[1..], z, amount);
    }
  }

  lemma {:induction false} HeldNeutral(legs: seq<Leg>, entities: seq<Entity>, z: Entity, amount: int)
    ensures SumBy(NeutralIn(legs), Held(legs, entities, z, amount)) == amount * multiset(entities)[z]
  {
    hide Net;
    if entities != [] {
      HeldNeutral(legs, entities[1..], z, amount);
      var h := Held(legs, entities, z, amount);
      assert h[1..] == Held(legs, entities[1..], z, amount);
      assert NeutralIn(legs)(h[0]) == if entities[0] == z then amount else 0;
      CountHead(entities, z, amount);
    }
  }

  /** The same request, with other liquidities. */
  ghost predicate SameButLiquidity(p: Payload, q: Payload) {
    && q.entityIds == p.entityIds && q.legs == p.legs && |q.entities| == |p.entities|
    && forall k :: 0 <= k < |p.entities| ==> q.entities[k].(liquidity := p.entities[k].liquidity) == p.entities[k]
  }

  /** An entity without a reserve target reports ratio zero whatever it holds, so its liquidity lifts the whole above
    every part. */
  lemma LiftedAbove(p: Payload, z: Entity) returns (q: Payload)
    requires ValidPayload(p) && z in p.entities && TargetOf(z) == 0
    requires exists e :: e in p.entities && TargetOf(e) > 0
    ensures SameButLiquidity(p, q) && ValidPayload(q) && !Between(q)
  {
    hide Net, SumBy, LegInside, Paired, Held, Ratio;
    var target := SumBy(TargetOf, p.entities);
    q := AllHeldBy(p, z, target);
    HeldAt(p.legs, p.entities, z, target);
    assert ValidPayload(q);
    WholeAtTarget(p, z, q);
    forall k | 0 <= k < |q.entities|
      ensures ReportOf(q, q.entities[k]).metrics.ratio == 0
    {
      var e := q.entities[k];
      NothingReported(e.liquidity - Net(q.legs, e.entityId), TargetOf(e));
    }
  }

  lemma NothingReported(liquidity: int, target: nat)
    requires liquidity == 0 || target == 0
    ensures Ratio(liquidity, target) == 0
  {
    RoundInteger(0);
  }

  lemma EntitiesDistinct(p: Payload)
    requires ValidPayload(p)
    ensures Distinct(p.entities)
  {
    forall i, j | 0 <= i < j < |p.entities|
      ensures p.entities[i] != p.entities[j]
    {
      assert IdsOf(p.entities)[i] != IdsOf(p.entities)[j];
    }
  }

  lemma {:induction false} SomeTarget(entities: seq<Entity>)
    requires exists e :: e in entities && TargetOf(e) > 0
    ensures SumBy(TargetOf, entities) > 0
  {
    var e :| e in entities && TargetOf(e) > 0;
    var i :| 0 <= i < |entities| && entities[i] == e;
    SumByRemove(TargetOf, entities, i);
    var rest := entities[..i] + entities[i + 1..];
    SumByAdds(TargetOf, MinimumOf, VolatilityOf, rest);
    SumNonNegative(rest);
  }

  lemma WholeAtTarget(p: Payload, z: Entity, q: Payload)
    requires ValidPayload(p) && z in p.entities
    requires q == AllHeldBy(p, z, SumBy(TargetOf, p.entities)) && ValidPayload(q)
    requires exists e :: e in p.entities && TargetOf(e) > 0
    ensures Whole(q.entities).ratio == 10000
  {
    hide Net, SumBy, ValidPayload, Held;
    var target := SumBy(TargetOf, p.entities);
    HeldTargets(p.legs, p.entities, z, target);
    HeldNeutral(p.legs, p.entities, z, target);
    EntitiesDistinct(p);
    DistinctCounts(p.entities, z);
    NeutralTotal(q);
    SomeTarget(p.entities);
    SumByAdds(TargetOf, MinimumOf, VolatilityOf, q.entities);
    assert target as real / target as real == 1.0;
    RoundInteger(10000);
  }

  lemma SameTargets(p: Payload, q: Payload, e: Entity) returns (f: Entity)
    requires SameButLiquidity(p, q) && e in q.entities
    ensures f in p.entities && TargetOf(f) == TargetOf(e)
  {
    var k :| 0 <= k < |q.entities| && q.entities[k] == e;
    f := p.entities[k];
    assert q.entities[k].(liquidity := f.liquidity) == f;
  }

  /** For given reserve targets and transfers, the whole lies between its parts whatever the liquidities are exactly
    when all the targets are positive or all are zero. */
  lemma BracketedExactly(p: Payload)
    requires ValidPayload(p) && p.entities != []
    ensures (forall q :: SameButLiquidity(p, q) && ValidPayload(q) ==> Between(q))
       <==> (forall e :: e in p.entities ==> TargetOf(e) > 0) || (forall e :: e in p.entities ==> TargetOf(e) == 0)
  {
    if forall e :: e in p.entities ==> TargetOf(e) > 0 {
      forall q | SameButLiquidity(p, q) && ValidPayload(q)
        ensures Between(q)
      {
        forall e | e in q.entities ensures TargetOf(e) > 0 {
          var f := SameTargets(p, q, e);
        }
        PositiveTargetsBracket(q);
      }
    } else if forall e :: e in p.entities ==> TargetOf(e) == 0 {
      forall q | SameButLiquidity(p, q) && ValidPayload(q)
        ensures Between(q)
      {
        forall e | e in q.entities ensures TargetOf(e) == 0 {
          var f := SameTargets(p, q, e);
        }
        NoTargetsBracket(q);
      }
    } else {
      var z :| z in p.entities && TargetOf(z) <= 0;
      var q := LiftedAbove(p, z);
    }
  }

  // ------------------------------------------------------------------ the order of the request

  /** The same selection, entities and legs, listed in other orders. */
  ghost predicate Reordered(p: Payload, q: Payload) {
    && multiset(p.entityIds) == multiset(q.entityIds)
    && multiset(p.entities) == multiset(q.entities)
    && multiset(p.legs) == multiset(q.legs)
  }

  lemma SameMembers<T(!new)>(s: seq<T>, t: seq<T>)
    requires multiset(s) == multiset(t)
    ensures forall x :: x in s <==> x in t
  {
    forall x ensures x in s <==> x in t {
      assert x in s <==> x in multiset(s);
    }
  }

  function One(e: Entity): int { 1 }

  lemma {:induction false} IdCount(entities: seq<Entity>, id: string)
    ensures multiset(IdsOf(entities))[id] == SumBy(Keyed(EntityIdOf, One, id), entities)
  {
    if entities != [] {
      IdCount(entities[1..], id);
      assert IdsOf(entities) == [entities[0].entityId] + IdsOf(entities[1..]);
      assert EntityIdOf(entities[0]) == entities[0].entityId && One(entities[0]) == 1;
    }
  }

  lemma SameIds(a: seq<Entity>, b: seq<Entity>)
    requires multiset(a) == multiset(b)
    ensures multiset(IdsOf(a)) == multiset(IdsOf(b))
  {
    forall id ensures multiset(IdsOf(a))[id] == multiset(IdsOf(b))[id] {
      IdCount(a, id);
      IdCount(b, id);
      SumByPermutation(Keyed(EntityIdOf, One, id), a, b);
    }
  }

  lemma {:induction false} GroupCount(legs: seq<Leg>, id: string, leg: Leg)
    ensures multiset(LegsFor(legs, id))[leg] == if leg.transferId == id then multiset(legs)[leg] else 0
  {
    if legs != [] {
      var n := |legs| - 1;
      GroupCount(legs[..n], id, leg);
      assert legs == legs[..n] + [legs[n]];
    }
  }

  lemma SameGroup(a: seq<Leg>, b: seq<Leg>, id: string)
    requires multiset(a) == multiset(b)
    ensures multiset(LegsFor(a, id)) == multiset(LegsFor(b, id))
  {
    forall leg ensures multiset(LegsFor(a, id))[leg] == multiset(LegsFor(b, id))[leg] {
      GroupCount(a, id, leg);
      GroupCount(b, id, leg);
    }
  }

  /** A mirrored pair is mirrored, and reports the same transfer, whichever of its legs comes first. */
  lemma PairEitherWay(a: seq<Leg>, b: seq<Leg>)
    requires multiset(a) == multiset(b) && Paired(a) && a[0].transferId == a[1].transferId
    ensures Paired(b) && PairOf(a) == PairOf(b)
  {
    assert |a| == |multiset(a)| == |multiset(b)| == |b|;
    assert a == [a[0], a[1]] && b == [b[0], b[1]];
    assert a[0] in multiset(b) && b[0] in multiset(a) && b[1] in multiset(a);
    StrLeLaws();
  }

  lemma ReorderedValid(p: Payload, q: Payload)
    requires ValidPayload(p) && Reordered(p, q)
    ensures ValidPayload(q)
    ensures forall leg :: leg in p.legs ==> LegsFor(p.legs, leg.transferId) != []
    ensures forall leg :: leg in p.legs ==> LegsFor(q.legs, leg.transferId) != []
    ensures forall leg :: leg in p.legs ==>
              PairOf(LegsFor(q.legs, leg.transferId)) == PairOf(LegsFor(p.legs, leg.transferId))
  {
    hide Mirrored, PairOf, LegsFor;
    DistinctPermutes(p.entityIds, q.entityIds);
    SameIds(p.entities, q.entities);
    DistinctPermutes(IdsOf(p.entities), IdsOf(q.entities));
    SameMembers(p.entityIds, q.entityIds);
    SameMembers(IdsOf(p.entities), IdsOf(q.entities));
    SameMembers(p.legs, q.legs);
    forall leg | leg in p.legs
      ensures Paired(LegsFor(q.legs, leg.transferId)) && LegsFor(p.legs, leg.transferId) != []
      ensures PairOf(LegsFor(q.legs, leg.transferId)) == PairOf(LegsFor(p.legs, leg.transferId))
    {
      var group := LegsFor(p.legs, leg.transferId);
      assert Paired(group);
      SameGroup(p.legs, q.legs, leg.transferId);
      LegListed(p.legs, leg.transferId, group[0]);
      LegListed(p.legs, leg.transferId, group[1]);
      PairEitherWay(group, LegsFor(q.legs, leg.transferId));
    }
  }

  lemma ReorderedParts(p: Payload, q: Payload, id: string)
    requires ValidPayload(p) && ValidPayload(q) && Reordered(p, q)
    ensures Find(p.entities, id) == Find(q.entities, id)
    ensures Net(p.legs, id) == Net(q.legs, id)
  {
    SumByPermutation(Keyed(LegEntity, Signed, id), p.legs, q.legs);
    SameMembers(p.entities, q.entities);
    var found := Find(p.entities, id);
    if found.Some? {
      FindUnique(q.entities, found.value);
    }
  }

  lemma ReorderedWhole(a: seq<Entity>, b: seq<Entity>)
    requires multiset(a) == multiset(b)
    ensures Whole(a) == Whole(b)
  {
    SumByPermutation(LiquidityOf, a, b);
    SumByPermutation(FixedOf, a, b);
    SumByPermutation(VariableOf, a, b);
    SumByPermutation(MinimumOf, a, b);
    SumByPermutation(VolatilityOf, a, b);
  }

  predicate ByTransfer(x: Pair, y: Pair) {
    StrLe(x.transferId, y.transferId)
  }

  lemma PairsDetermined(a: seq<Pair>, b: seq<Pair>)
    requires PairsInOrder(a) && PairsInOrder(b) && forall x :: x in a <==> x in b
    ensures a == b
  {
    StrLeLaws();
    hide StrLe;
    assert Distinct(a) && Distinct(b);
    forall x ensures multiset(a)[x] == multiset(b)[x] {
      DistinctCounts(a, x);
      DistinctCounts(b, x);
    }
    assert NoTies(ByTransfer, a);
    SortedUnique(ByTransfer, a, b);
  }

  lemma SameSortedIds(a: seq<string>, b: seq<string>)
    requires multiset(a) == multiset(b)
    ensures Sort(StrLe, a) == Sort(StrLe, b)
  {
    StrLeLaws();
    assert NoTies(StrLe, a);
    SortIgnoresInputOrder(StrLe, a, b);
  }

  /** Listing the ids, the entities or the legs in another order changes neither acceptance nor any part of the
    report. */
  lemma OrderOfRequestIrrelevant(p: Payload, q: Payload, r: Report, s: Report)
    requires ValidPayload(p) && Reordered(p, q)
    requires IsReport(p, r) && IsReport(q, s)
    ensures ValidPayload(q) && r == s
  {
    hide ValidPayload, Find, Net, Whole, Sort, PairOf, LegsFor, MetricsOf, PairsInOrder, StrLe;
    ReorderedValid(p, q);
    SameSortedIds(p.entityIds, q.entityIds);
    ReorderedWhole(p.entities, q.entities);
    forall k | 0 <= k < |r.entities|
      ensures r.entities[k] == s.entities[k]
    {
      ReorderedParts(p, q, r.entityIds[k]);
      var e := Find(p.entities, r.entityIds[k]).value;
      assert ReportOf(p, e) == ReportOf(q, e);
    }
    assert r.entities == s.entities;
    SameMembers(p.legs, q.legs);
    forall x ensures x in r.pairs <==> x in s.pairs {
      assert IsPair(p.legs, x) <==> IsPair(q.legs, x);
    }
    PairsDetermined(r.pairs, s.pairs);
  }
}
