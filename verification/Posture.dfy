/** Capital posture of one entity and of several taken together (src/capital_os/domain/posture/engine.py,
  posture/consolidation.py, and the payload validator in src/capital_os/schemas/tools.py). */
module Posture {
  import opened Wrappers
  import opened Ordering
  import opened Money

  // ------------------------------------------------------------------ one entity

  datatype RiskBand = Critical | Elevated | Guarded | Stable

  datatype Metrics = Metrics(
    fixedBurn: int, variableBurn: int, volatilityBuffer: int, reserveTarget: int,
    liquidity: int, surplus: int, ratio: int, band: RiskBand)

  /** _derive_risk_band, on a ratio in 0.0001 units. */
  function Band(ratio: int): RiskBand {
    if ratio < 5000 then Critical
    else if ratio < 10000 then Elevated
    else if ratio < 15000 then Guarded
    else Stable
  }

  /** Liquidity over target, to four places; zero when there is no target. */
  function Ratio(liquidity: int, target: nat): int {
    if target == 0 then 0 else RoundHalfEven(liquidity as real / target as real * 10000.0)
  }

  /** compute_posture_metrics */
  function MetricsOf(liquidity: int, fixedBurn: nat, variableBurn: nat, minimumReserve: nat,
                     volatilityBuffer: nat): Metrics {
    var target := minimumReserve + volatilityBuffer;
    var ratio := Ratio(liquidity, target);
    Metrics(fixedBurn, variableBurn, volatilityBuffer, target, liquidity, liquidity - target, ratio, Band(ratio))
  }

  function BandRank(b: RiskBand): nat {
    match b
    case Critical => 0
    case Elevated => 1
    case Guarded => 2
    case Stable => 3
  }

  lemma BandMonotone(r: int, s: int)
    requires r <= s
    ensures BandRank(Band(r)) <= BandRank(Band(s))
  {
  }

  // ------------------------------------------------------------------ payloads

  datatype Direction = In | Out

  datatype Leg = Leg(transferId: string, entityId: string, counterpartyId: string, direction: Direction, amount: int)

  datatype Entity = Entity(
    entityId: string, liquidity: int, fixedBurn: nat, variableBurn: nat, minimumReserve: nat, volatilityBuffer: nat)

  datatype Payload = Payload(entityIds: seq<string>, entities: seq<Entity>, legs: seq<Leg>)

  function EntityIdOf(e: Entity): string {
    e.entityId
  }

  function TransferOf(leg: Leg): string {
    leg.transferId
  }

  function IdsOf(entities: seq<Entity>): seq<string> {
    seq(|entities|, i requires 0 <= i < |entities| => entities[i].entityId)
  }

  /** The legs of one transfer, in the order given. */
  function LegsFor(legs: seq<Leg>, id: string): seq<Leg> {
    if legs == [] then []
    else
      var last := legs[|legs| - 1];
      LegsFor(legs[..|legs| - 1], id) + (if last.transferId == id then [last] else [])
  }

  predicate Mirrored(a: Leg, b: Leg) {
    && a.direction != b.direction
    && a.entityId == b.counterpartyId && b.entityId == a.counterpartyId
    && a.amount == b.amount
  }

  /** Exactly two legs: one in, one out, swapped parties, one amount. */
  predicate Paired(group: seq<Leg>) {
    |group| == 2 && Mirrored(group[0], group[1])
  }

  predicate LegInside(leg: Leg, selected: seq<string>) {
    leg.entityId != leg.counterpartyId && leg.entityId in selected && leg.counterpartyId in selected
  }

  /** Entities and selected ids name each other one to one. */
  ghost predicate SelectionMatches(p: Payload) {
    && Distinct(p.entityIds)
    && Distinct(IdsOf(p.entities))
    && (forall id :: id in p.entityIds <==> id in IdsOf(p.entities))
  }

  /** What the validator accepts. */
  ghost predicate ValidPayload(p: Payload) {
    && SelectionMatches(p)
    && (forall leg :: leg in p.legs ==> LegInside(leg, p.entityIds) && Paired(LegsFor(p.legs, leg.transferId)))
  }

  datatype Refusal =
    | DuplicateEntityIds
    | DuplicateEntities
    | EntitiesMismatch
    | SameParty
    | OutsideSelection
    | NotTwoLegs
    | SameDirection
    | NotMirrored
    | AmountsDiffer

  // ------------------------------------------------------------------ grouping legs

  lemma LegsForAppend(legs: seq<Leg>, leg: Leg, id: string)
    ensures LegsFor(legs + [leg], id) == LegsFor(legs, id) + (if leg.transferId == id then [leg] else [])
  {
    assert (legs + [leg])[..|legs|] == legs;
  }

  lemma {:induction false} LegListed(legs: seq<Leg>, id: string, leg: Leg)
    ensures leg in LegsFor(legs, id) <==> leg in legs && leg.transferId == id
  {
    if legs != [] {
      var n := |legs| - 1;
      LegListed(legs[..n], id, leg);
      assert legs == legs[..n] + [legs[n]];
    }
  }

  /** transfer_groups: the legs by transfer id, and the ids in order of first appearance. */
  method GroupLegs(legs: seq<Leg>) returns (groups: map<string, seq<Leg>>, order: seq<string>)
    ensures forall id :: id in groups <==> exists leg :: leg in legs && leg.transferId == id
    ensures forall id :: id in groups ==> groups[id] == LegsFor(legs, id)
    ensures Distinct(order) && forall id :: id in order <==> id in groups
  {
    groups, order := map[], [];
    for i := 0 to |legs|
      invariant forall id :: id in groups <==> exists leg :: leg in legs[..i] && leg.transferId == id
      invariant forall id :: id in groups ==> groups[id] == LegsFor(legs[..i], id)
      invariant Distinct(order) && forall id :: id in order <==> id in groups
    {
      var leg := legs[i];
      assert legs[..i + 1] == legs[..i] + [leg];
      forall id {
        LegsForAppend(legs[..i], leg, id);
      }
      if leg.transferId in groups {
        groups := groups[leg.transferId := groups[leg.transferId] + [leg]];
      } else {
        NoLegsYet(legs[..i], leg.transferId);
        groups, order := groups[leg.transferId := [leg]], order + [leg.transferId];
      }
    }
    assert legs[..|legs|] == legs;
  }

  lemma {:induction false} NoLegsYet(legs: seq<Leg>, id: string)
    requires forall leg :: leg in legs ==> leg.transferId != id
    ensures LegsFor(legs, id) == []
  {
    if legs != [] {
      NoLegsYet(legs[..|legs| - 1], id);
    }
  }

  // ------------------------------------------------------------------ the validator

  method CheckGroups(order: seq<string>, groups: map<string, seq<Leg>>) returns (refusal: Option<Refusal>)
    requires forall id :: id in order ==> id in groups
    ensures refusal.None? <==> forall id :: id in order ==> Paired(groups[id])
  {
    for i := 0 to |order|
      invariant forall j :: 0 <= j < i ==> Paired(groups[order[j]])
    {
      var legs := groups[order[i]];
      if |legs| != 2 {
        return Some(NotTwoLegs);
      }
      var first, second := legs[0], legs[1];
      if first.direction == second.direction {
        return Some(SameDirection);
      }
      if first.entityId != second.counterpartyId || second.entityId != first.counterpartyId {
        return Some(NotMirrored);
      }
      if first.amount != second.amount {
        return Some(AmountsDiffer);
      }
    }
    refusal := None;
  }

  method CheckEntities(p: Payload) returns (refusal: Option<Refusal>)
    ensures refusal.None? <==> SelectionMatches(p)
  {
    if !Distinct(p.entityIds) {
      return Some(DuplicateEntityIds);
    }
    var ids := IdsOf(p.entities);
    if !Distinct(ids) {
      return Some(DuplicateEntities);
    }
    var selected, given := set id | id in p.entityIds, set id | id in ids;
    assert SelectionMatches(p) ==> selected == given;
    if selected != given {
      return Some(EntitiesMismatch);
    }
    assert forall id :: (id in selected <==> id in p.entityIds) && (id in given <==> id in ids);
    refusal := None;
  }

  method CheckLegs(p: Payload) returns (refusal: Option<Refusal>)
    ensures refusal.None? <==> forall leg :: leg in p.legs ==> LegInside(leg, p.entityIds)
  {
    for i := 0 to |p.legs|
      invariant forall j :: 0 <= j < i ==> LegInside(p.legs[j], p.entityIds)
    {
      var leg := p.legs[i];
      if leg.entityId == leg.counterpartyId {
        assert !LegInside(leg, p.entityIds);
        return Some(SameParty);
      }
      if leg.entityId !in p.entityIds || leg.counterpartyId !in p.entityIds {
        assert !LegInside(leg, p.entityIds);
        return Some(OutsideSelection);
      }
    }
    refusal := None;
  }

  /** _validate_entity_selection_and_transfer_pairs accepts exactly the valid payloads. */
  method Validate(p: Payload) returns (refusal: Option<Refusal>)
    ensures refusal.None? <==> ValidPayload(p)
  {
    hide SelectionMatches, LegInside, Paired, LegsFor, Sort;
    refusal := CheckEntities(p);
    if refusal.Some? {
      return;
    }
    refusal := CheckLegs(p);
    if refusal.Some? {
      return;
    }
    var groups, order := GroupLegs(p.legs);
    SortedIds(order);
    refusal := CheckGroups(Sort(StrLe, order), groups);
    if refusal.Some? {
      var id :| id in order && !Paired(groups[id]);
      var leg :| leg in p.legs && leg.transferId == id;
      assert !Paired(LegsFor(p.legs, leg.transferId));
    } else {
      forall leg | leg in p.legs
        ensures Paired(LegsFor(p.legs, leg.transferId))
      {
        assert leg.transferId in order;
      }
    }
  }

  lemma StrOrder()
    ensures Preorder(StrLe)
    ensures forall s :: NoTies(StrLe, s)
  {
    StrLeLaws();
  }

  // ------------------------------------------------------------------ the consolidated report, declaratively

  /** A leg's effect on its own entity. */
  function Signed(leg: Leg): int {
    if leg.direction == In then leg.amount else -leg.amount
  }

  function LegEntity(leg: Leg): string {
    leg.entityId
  }

  /** An entity's net of transfers in and out. */
  function Net(legs: seq<Leg>, id: string): int {
    SumBy(Keyed(LegEntity, Signed, id), legs)
  }

  function Find(entities: seq<Entity>, id: string): (e: Option<Entity>)
    ensures e.Some? ==> e.value in entities && e.value.entityId == id
    ensures e.None? ==> forall x :: x in entities ==> x.entityId != id
  {
    if entities == [] then None
    else if entities[0].entityId == id then Some(entities[0])
    else Find(entities[1..], id)
  }

  /** A figure of the entity with this id. */
  function At(entities: seq<Entity>, figure: Entity -> int): string -> int {
    (id: string) => match Find(entities, id) case None => 0 case Some(e) => figure(e)
  }

  function LiquidityOf(e: Entity): int { e.liquidity }
  function FixedOf(e: Entity): int { e.fixedBurn }
  function VariableOf(e: Entity): int { e.variableBurn }
  function MinimumOf(e: Entity): int { e.minimumReserve }
  function VolatilityOf(e: Entity): int { e.volatilityBuffer }
  function TargetOf(e: Entity): int { e.minimumReserve + e.volatilityBuffer }

  datatype EntityReport = EntityReport(entity: Entity, transferNet: int, metrics: Metrics)

  datatype Pair = Pair(transferId: string, entityA: string, entityB: string, amount: int)

  datatype Report = Report(entityIds: seq<string>, entities: seq<EntityReport>, pairs: seq<Pair>, consolidated: Metrics)

  function ReportOf(p: Payload, e: Entity): EntityReport {
    var net := Net(p.legs, e.entityId);
    EntityReport(e, net,
                 MetricsOf(e.liquidity - net, e.fixedBurn, e.variableBurn, e.minimumReserve, e.volatilityBuffer))
  }

  function PairOf(group: seq<Leg>): Pair
    requires |group| > 0
  {
    var leg := group[0];
    var (a, b) := if StrLe(leg.entityId, leg.counterpartyId) then (leg.entityId, leg.counterpartyId)
                  else (leg.counterpartyId, leg.entityId);
    Pair(leg.transferId, a, b, leg.amount)
  }

  lemma SumNonNegative(entities: seq<Entity>)
    ensures SumBy(FixedOf, entities) >= 0 && SumBy(VariableOf, entities) >= 0
    ensures SumBy(MinimumOf, entities) >= 0 && SumBy(VolatilityOf, entities) >= 0
  {
  }

  /** The metrics of the whole, from the raw figures of all entities. */
  function Whole(entities: seq<Entity>): Metrics {
    SumNonNegative(entities);
    MetricsOf(SumBy(LiquidityOf, entities), SumBy(FixedOf, entities), SumBy(VariableOf, entities),
              SumBy(MinimumOf, entities), SumBy(VolatilityOf, entities))
  }

  /** The report the engine owes for a payload. */
  ghost predicate IsReport(p: Payload, r: Report) {
    && r.entityIds == Sort(StrLe, p.entityIds)
    && |r.entities| == |r.entityIds|
    && (forall k :: 0 <= k < |r.entityIds| ==>
          && Find(p.entities, r.entityIds[k]).Some?
          && r.entities[k] == ReportOf(p, Find(p.entities, r.entityIds[k]).value))
    && r.consolidated == Whole(p.entities)
    && PairsInOrder(r.pairs)
    && (forall x :: x in r.pairs <==> IsPair(p.legs, x))
  }

  /** Strictly ascending transfer ids. */
  ghost predicate PairsInOrder(pairs: seq<Pair>) {
    forall i, j :: 0 <= i < j < |pairs| ==> StrLt(pairs[i].transferId, pairs[j].transferId)
  }

  ghost predicate IsPair(legs: seq<Leg>, x: Pair) {
    exists leg :: leg in legs && LegsFor(legs, leg.transferId) != [] && x == PairOf(LegsFor(legs, leg.transferId))
  }

  // ------------------------------------------------------------------ facts the loops need

  lemma SameElementsSameMultiset(s: seq<string>, t: seq<string>)
    requires Distinct(s) && Distinct(t) && forall x :: x in s <==> x in t
    ensures multiset(s) == multiset(t)
  {
    forall x
      ensures multiset(s)[x] == multiset(t)[x]
    {
      DistinctCounts(s, x);
      DistinctCounts(t, x);
    }
  }

  lemma {:induction false} FindUnique(entities: seq<Entity>, e: Entity)
    requires Distinct(IdsOf(entities)) && e in entities
    ensures Find(entities, e.entityId) == Some(e)
  {
    if entities[0] != e {
      var i :| 0 <= i < |entities| && entities[i] == e;
      assert IdsOf(entities)[i] == e.entityId && IdsOf(entities)[0] == entities[0].entityId;
      assert IdsOf(entities[1..]) == IdsOf(entities)[1..];
      FindUnique(entities[1..], e);
    }
  }

  lemma {:induction false} SumOverIds(all: seq<Entity>, entities: seq<Entity>, figure: Entity -> int)
    requires forall e :: e in entities ==> Find(all, e.entityId) == Some(e)
    ensures SumBy(At(all, figure), IdsOf(entities)) == SumBy(figure, entities)
  {
    if entities != [] {
      assert IdsOf(entities)[1..] == IdsOf(entities[1..]);
      SumOverIds(all, entities[1..], figure);
    }
  }

  /** Totalling a figure over the selected ids, in any order, is totalling it over the entities. */
  lemma SelectedTotal(p: Payload, ids: seq<string>, figure: Entity -> int)
    requires ValidPayload(p) && multiset(ids) == multiset(p.entityIds)
    ensures SumBy(At(p.entities, figure), ids) == SumBy(figure, p.entities)
  {
    SameElementsSameMultiset(p.entityIds, IdsOf(p.entities));
    SumByPermutation(At(p.entities, figure), ids, IdsOf(p.entities));
    forall e | e in p.entities
      ensures Find(p.entities, e.entityId) == Some(e)
    {
      FindUnique(p.entities, e);
    }
    SumOverIds(p.entities, p.entities, figure);
  }

  // ------------------------------------------------------------------ transfer neutrality

  lemma {:induction false} GroupTotal(legs: seq<Leg>, id: string, f: Leg -> int)
    ensures SumBy(Keyed(TransferOf, f, id), legs) == SumBy(f, LegsFor(legs, id))
  {
    if legs != [] {
      var n := |legs| - 1;
      GroupTotal(legs[..n], id, f);
      assert legs == legs[..n] + [legs[n]];
      SumByAppend(Keyed(TransferOf, f, id), legs[..n], legs[n]);
      if legs[n].transferId == id {
        SumByAppend(f, LegsFor(legs[..n], id), legs[n]);
      } else {
        assert LegsFor(legs, id) == LegsFor(legs[..n], id);
      }
    }
  }

  lemma PairCancels(group: seq<Leg>)
    requires Paired(group)
    ensures SumBy(Signed, group) == 0
  {
    assert group == [group[0]] + [group[1]];
    SumByAppend(Signed, [group[0]], group[1]);
    SumByAppend(Signed, [], group[0]);
    assert [] + [group[0]] == [group[0]];
  }

  /** All transfer legs together cancel. */
  lemma LegsCancel(p: Payload, order: seq<string>)
    requires ValidPayload(p) && Distinct(order) && forall leg :: leg in p.legs ==> leg.transferId in order
    requires forall id :: id in order ==> exists leg :: leg in p.legs && leg.transferId == id
    ensures SumBy(Signed, p.legs) == 0
  {
    forall leg | leg in p.legs
      ensures multiset(order)[leg.transferId] == 1
    {
      DistinctCounts(order, leg.transferId);
    }
    SumByKey(TransferOf, Signed, p.legs, order);
    forall id | id in order
      ensures TotalAt(TransferOf, Signed, p.legs)(id) == 0
    {
      GroupTotal(p.legs, id, Signed);
      var leg :| leg in p.legs && leg.transferId == id;
      PairCancels(LegsFor(p.legs, id));
    }
    SumByZero(TotalAt(TransferOf, Signed, p.legs), order);
  }

  /** A listing of the transfer ids exists. */
  lemma {:induction false} TransferIds(legs: seq<Leg>) returns (order: seq<string>)
    ensures Distinct(order)
    ensures forall id :: id in order <==> exists leg :: leg in legs && leg.transferId == id
  {
    if legs == [] {
      order := [];
    } else {
      var n := |legs| - 1;
      order := TransferIds(legs[..n]);
      assert legs == legs[..n] + [legs[n]];
      if legs[n].transferId !in order {
        order := order + [legs[n].transferId];
      }
    }
  }

  function NetOf(legs: seq<Leg>): string -> int {
    (id: string) => Net(legs, id)
  }

  /** For every payload the validator accepts, the entities' transfer nets sum to zero. */
  lemma NetsCancel(p: Payload, ids: seq<string>)
    requires ValidPayload(p) && multiset(ids) == multiset(p.entityIds)
    ensures SumBy(NetOf(p.legs), ids) == 0
  {
    var order := TransferIds(p.legs);
    LegsCancel(p, order);
    forall leg | leg in p.legs
      ensures multiset(ids)[leg.entityId] == 1
    {
      DistinctCounts(p.entityIds, leg.entityId);
    }
    SumByKey(LegEntity, Signed, p.legs, ids);
    SumByAgree(NetOf(p.legs), TotalAt(LegEntity, Signed, p.legs), ids);
  }

  function NeutralOf(p: Payload): string -> int {
    (id: string) => At(p.entities, LiquidityOf)(id) - Net(p.legs, id)
  }

  function Negated(legs: seq<Leg>): string -> int {
    (id: string) => -Net(legs, id)
  }

  lemma {:induction false} NegatedTotal(legs: seq<Leg>, ids: seq<string>)
    ensures SumBy(Negated(legs), ids) == -SumBy(NetOf(legs), ids)
  {
    if ids != [] {
      NegatedTotal(legs, ids[1..]);
    }
  }

  /** Removing the transfers moves liquidity between entities and never changes the whole. */
  lemma TransferNeutral(p: Payload, ids: seq<string>)
    requires ValidPayload(p) && multiset(ids) == multiset(p.entityIds)
    ensures SumBy(NeutralOf(p), ids) == SumBy(LiquidityOf, p.entities)
  {
    NetsCancel(p, ids);
    NegatedTotal(p.legs, ids);
    SumByAdds(NeutralOf(p), At(p.entities, LiquidityOf), Negated(p.legs), ids);
    SelectedTotal(p, ids, LiquidityOf);
  }

  // ------------------------------------------------------------------ the engine

  lemma LegStep(legs: seq<Leg>, m: nat, id: string)
    requires m < |legs|
    ensures SumBy(Keyed(LegEntity, Signed, id), legs[..m + 1])
         == SumBy(Keyed(LegEntity, Signed, id), legs[..m]) + (if legs[m].entityId == id then Signed(legs[m]) else 0)
  {
    assert legs[..m + 1] == legs[..m] + [legs[m]];
    SumByAppend(Keyed(LegEntity, Signed, id), legs[..m], legs[m]);
    assert LegEntity(legs[m]) == legs[m].entityId;
  }

  /** One transfer's legs applied to the running nets. */
  method ApplyLegs(before: map<string, int>, legs: seq<Leg>) returns (nets: map<string, int>)
    requires forall leg :: leg in legs ==> leg.entityId in before
    ensures nets.Keys == before.Keys
    ensures forall id :: id in before ==> nets[id] == before[id] + SumBy(Keyed(LegEntity, Signed, id), legs)
  {
    nets := before;
    for m := 0 to |legs|
      invariant nets.Keys == before.Keys
      invariant forall id :: id in before ==> nets[id] == before[id] + SumBy(Keyed(LegEntity, Signed, id), legs[..m])
    {
      var leg := legs[m];
      forall id {
        LegStep(legs, m, id);
      }
      if leg.direction == In {
        nets := nets[leg.entityId := nets[leg.entityId] + leg.amount];
      } else {
        nets := nets[leg.entityId := nets[leg.entityId] - leg.amount];
      }
    }
    assert legs[..|legs|] == legs;
  }

  /** transfer_net_by_entity, transfer by transfer, and the pair each transfer reports. */
  method TransferNets(ids: seq<string>, ordered: seq<string>, groups: map<string, seq<Leg>>)
    returns (nets: map<string, int>, pairs: seq<Pair>)
    requires forall id :: id in ordered ==> id in groups && |groups[id]| > 0
    requires forall id, leg :: id in ordered && leg in groups[id] ==> leg.entityId in ids
    ensures nets.Keys == set id | id in ids
    ensures forall id :: id in ids ==> nets[id] == GroupsNet(ordered, groups, id)
    ensures |pairs| == |ordered| && forall k :: 0 <= k < |ordered| ==> pairs[k] == PairOf(groups[ordered[k]])
  {
    hide Keyed, PairOf;
    nets, pairs := map id | id in ids :: 0, [];
    for k := 0 to |ordered|
      invariant nets.Keys == set id | id in ids
      invariant forall id :: id in ids ==> nets[id] == GroupsNet(ordered[..k], groups, id)
      invariant |pairs| == k && forall m :: 0 <= m < k ==> pairs[m] == PairOf(groups[ordered[m]])
    {
      assert ordered[..k + 1][..k] == ordered[..k];
      nets := ApplyLegs(nets, groups[ordered[k]]);
      pairs := pairs + [PairOf(groups[ordered[k]])];
    }
    assert ordered[..|ordered|] == ordered;
  }

  /** An entity's net over the groups listed. */
  function GroupsNet(order: seq<string>, groups: map<string, seq<Leg>>, id: string): int
    requires forall t :: t in order ==> t in groups
  {
    if order == [] then 0
    else
      var n := |order| - 1;
      GroupsNet(order[..n], groups, id) + SumBy(Keyed(LegEntity, Signed, id), groups[order[n]])
  }

  lemma {:induction false} GroupsNetTotal(order: seq<string>, groups: map<string, seq<Leg>>, legs: seq<Leg>, id: string)
    requires forall t :: t in order ==> t in groups && groups[t] == LegsFor(legs, t)
    ensures GroupsNet(order, groups, id) == SumBy(TotalAt(TransferOf, Keyed(LegEntity, Signed, id), legs), order)
  {
    if order != [] {
      var n := |order| - 1;
      GroupsNetTotal(order[..n], groups, legs, id);
      GroupTotal(legs, order[n], Keyed(LegEntity, Signed, id));
      assert order == order[..n] + [order[n]];
      SumByAppend(TotalAt(TransferOf, Keyed(LegEntity, Signed, id), legs), order[..n], order[n]);
    }
  }

  /** Whatever order the transfers are taken in, an entity's net is the total over its own legs. */
  lemma GroupedNet(legs: seq<Leg>, groups: map<string, seq<Leg>>, order: seq<string>, id: string)
    requires Distinct(order) && forall t :: t in order ==> t in groups && groups[t] == LegsFor(legs, t)
    requires forall leg :: leg in legs ==> leg.transferId in order
    ensures GroupsNet(order, groups, id) == Net(legs, id)
  {
    GroupsNetTotal(order, groups, legs, id);
    forall leg | leg in legs
      ensures multiset(order)[leg.transferId] == 1
    {
      DistinctCounts(order, leg.transferId);
    }
    SumByKey(TransferOf, Keyed(LegEntity, Signed, id), legs, order);
  }

  lemma SortedIds(ids: seq<string>)
    requires Distinct(ids)
    ensures multiset(Sort(StrLe, ids)) == multiset(ids) && Distinct(Sort(StrLe, ids))
    ensures forall id :: id in Sort(StrLe, ids) <==> id in ids
    ensures SortedBy(StrLe, Sort(StrLe, ids))
  {
    StrOrder();
    SortCorrect(StrLe, ids);
    var s := Sort(StrLe, ids);
    hide Sort, StrLe, Distinct, SortedBy;
    forall id ensures id in s <==> id in ids {
      assert id in s <==> id in multiset(s);
    }
    forall id ensures multiset(s)[id] <= 1 {
      DistinctCounts(ids, id);
    }
    CountedOnce(s);
  }

  /** The five running totals over `ids`. */
  predicate Totals(p: Payload, ids: seq<string>, liquidity: int, fixedBurn: int, variableBurn: int, minimumReserve: int,
                   volatilityBuffer: int) {
    && liquidity == SumBy(NeutralOf(p), ids)
    && fixedBurn == SumBy(At(p.entities, FixedOf), ids)
    && variableBurn == SumBy(At(p.entities, VariableOf), ids)
    && minimumReserve == SumBy(At(p.entities, MinimumOf), ids)
    && volatilityBuffer == SumBy(At(p.entities, VolatilityOf), ids)
  }

  lemma TotalsStart(p: Payload, ids: seq<string>)
    ensures Totals(p, ids[..0], 0, 0, 0, 0, 0)
  {
  }

  lemma TotalStep(f: string -> int, ids: seq<string>, k: nat)
    requires k < |ids|
    ensures SumBy(f, ids[..k + 1]) == SumBy(f, ids[..k]) + f(ids[k])
  {
    assert ids[..k + 1] == ids[..k] + [ids[k]];
    SumByAppend(f, ids[..k], ids[k]);
  }

  lemma TotalsStep(p: Payload, ids: seq<string>, k: nat, liquidity: int, fixedBurn: int, variableBurn: int,
                   minimumReserve: int, volatilityBuffer: int)
    requires k < |ids| && Find(p.entities, ids[k]).Some?
    requires Totals(p, ids[..k], liquidity, fixedBurn, variableBurn, minimumReserve, volatilityBuffer)
    ensures var e := Find(p.entities, ids[k]).value;
            Totals(p, ids[..k + 1], liquidity + e.liquidity - Net(p.legs, ids[k]), fixedBurn + e.fixedBurn,
                   variableBurn + e.variableBurn, minimumReserve + e.minimumReserve,
                   volatilityBuffer + e.volatilityBuffer)
  {
    hide SumBy, Net, Find;
    TotalStep(NeutralOf(p), ids, k);
    TotalStep(At(p.entities, FixedOf), ids, k);
    TotalStep(At(p.entities, VariableOf), ids, k);
    TotalStep(At(p.entities, MinimumOf), ids, k);
    TotalStep(At(p.entities, VolatilityOf), ids, k);
    var e := Find(p.entities, ids[k]).value;
    assert FixedOf(e) == e.fixedBurn && VariableOf(e) == e.variableBurn && LiquidityOf(e) == e.liquidity;
    assert MinimumOf(e) == e.minimumReserve && VolatilityOf(e) == e.volatilityBuffer;
    assert At(p.entities, LiquidityOf)(ids[k]) == e.liquidity;
    assert NeutralOf(p)(ids[k]) == e.liquidity - Net(p.legs, ids[k]);
  }

  lemma MetricsCarry(e: Entity, net: int)
    ensures var m := MetricsOf(e.liquidity - net, e.fixedBurn, e.variableBurn, e.minimumReserve, e.volatilityBuffer);
            m.liquidity == e.liquidity - net && m.fixedBurn == e.fixedBurn && m.variableBurn == e.variableBurn
            && m.volatilityBuffer == e.volatilityBuffer
  {
  }

  /** The entities in the order of `ids`, each without its transfers, and the running totals. */
  method Accumulate(p: Payload, ids: seq<string>, nets: map<string, int>)
    returns (entities: seq<EntityReport>, liquidity: int, fixedBurn: nat, variableBurn: nat, minimumReserve: nat,
             volatilityBuffer: nat)
    requires ValidPayload(p)
    requires forall id :: id in ids ==> id in p.entityIds && id in nets && nets[id] == Net(p.legs, id)
    ensures |entities| == |ids|
    ensures forall k :: 0 <= k < |ids| ==>
              Find(p.entities, ids[k]).Some? && entities[k] == ReportOf(p, Find(p.entities, ids[k]).value)
    ensures Totals(p, ids, liquidity, fixedBurn, variableBurn, minimumReserve, volatilityBuffer)
  {
    hide ValidPayload, Find, Net, MetricsOf, At, NeutralOf, SumBy;
    entities := [];
    liquidity, fixedBurn, variableBurn, minimumReserve, volatilityBuffer := 0, 0, 0, 0, 0;
    TotalsStart(p, ids);
    for k := 0 to |ids|
      invariant |entities| == k
      invariant forall m :: 0 <= m < k ==>
                  Find(p.entities, ids[m]).Some? && entities[m] == ReportOf(p, Find(p.entities, ids[m]).value)
      invariant Totals(p, ids[..k], liquidity, fixedBurn, variableBurn, minimumReserve, volatilityBuffer)
    {
      Selected(p, ids[k]);
      var e := Find(p.entities, ids[k]).value;
      var net := nets[ids[k]];
      var metrics := MetricsOf(e.liquidity - net, e.fixedBurn, e.variableBurn, e.minimumReserve, e.volatilityBuffer);
      entities := entities + [EntityReport(e, net, metrics)];
      TotalsStep(p, ids, k, liquidity, fixedBurn, variableBurn, minimumReserve, volatilityBuffer);
      MetricsCarry(e, net);
      liquidity := liquidity + metrics.liquidity;
      fixedBurn := fixedBurn + metrics.fixedBurn;
      variableBurn := variableBurn + metrics.variableBurn;
      minimumReserve := minimumReserve + e.minimumReserve;
      volatilityBuffer := volatilityBuffer + metrics.volatilityBuffer;
    }
    assert ids[..|ids|] == ids;
  }

  /** The transfer half: legs grouped and taken in transfer id order. */
  method NetTransfers(p: Payload, ids: seq<string>) returns (nets: map<string, int>, pairs: seq<Pair>)
    requires ValidPayload(p) && forall id :: id in ids <==> id in p.entityIds
    ensures forall id :: id in ids ==> id in nets && nets[id] == Net(p.legs, id)
    ensures PairsInOrder(pairs) && forall x :: x in pairs <==> IsPair(p.legs, x)
  {
    hide Sort, LegsFor, PairOf, GroupsNet, IsPair, PairsInOrder, Net, ValidPayload, StrLe, SortedBy, Distinct;
    var groups, order := GroupLegs(p.legs);
    var ordered := Sort(StrLe, order);
    SortedIds(order);
    GroupsUsable(p, groups, ordered, ids);
    nets, pairs := TransferNets(ids, ordered, groups);
    PairsListed(p, groups, ordered, pairs);
    NetsAreTotals(p, groups, ordered, ids, nets);
  }

  /** compute_consolidated_posture: the entities in id order, each without its transfers, and the whole from the
    running totals, which come out as the totals of the raw figures. */
  method ComputeConsolidatedPosture(p: Payload) returns (report: Report)
    requires ValidPayload(p)
    ensures IsReport(p, report)
  {
    hide Sort, MetricsOf, Find, IsPair, PairsInOrder, Totals, Whole, Net, ValidPayload, StrLe, SortedBy, Distinct;
    var ids := Sort(StrLe, p.entityIds);
    SelectionDistinct(p);
    SortedIds(p.entityIds);
    var nets, pairs := NetTransfers(p, ids);
    var entities, liquidity, fixedBurn, variableBurn, minimumReserve, volatilityBuffer := Accumulate(p, ids, nets);
    TotalsAreWhole(p, ids, liquidity, fixedBurn, variableBurn, minimumReserve, volatilityBuffer);
    report := Report(ids, entities, pairs,
                     MetricsOf(liquidity, fixedBurn, variableBurn, minimumReserve, volatilityBuffer));
  }

  lemma SelectionDistinct(p: Payload)
    requires ValidPayload(p)
    ensures Distinct(p.entityIds)
  {
  }

  lemma NetsAreTotals(p: Payload, groups: map<string, seq<Leg>>, ordered: seq<string>, ids: seq<string>,
                      nets: map<string, int>)
    requires Distinct(ordered) && forall t :: t in ordered ==> t in groups && groups[t] == LegsFor(p.legs, t)
    requires forall leg :: leg in p.legs ==> leg.transferId in ordered
    requires forall id :: id in ids ==> id in nets && nets[id] == GroupsNet(ordered, groups, id)
    ensures forall id :: id in ids ==> nets[id] == Net(p.legs, id)
  {
    hide LegsFor, GroupsNet, Net;
    forall id | id in ids ensures nets[id] == Net(p.legs, id) {
      GroupedNet(p.legs, groups, ordered, id);
    }
  }

  /** The running totals over the selected ids are the totals of the raw figures. */
  lemma TotalsAreWhole(p: Payload, ids: seq<string>, liquidity: int, fixedBurn: nat, variableBurn: nat,
                       minimumReserve: nat,
                       volatilityBuffer: nat)
    requires ValidPayload(p) && multiset(ids) == multiset(p.entityIds)
    requires Totals(p, ids, liquidity, fixedBurn, variableBurn, minimumReserve, volatilityBuffer)
    ensures MetricsOf(liquidity, fixedBurn, variableBurn, minimumReserve, volatilityBuffer) == Whole(p.entities)
  {
    hide SumBy, MetricsOf, ValidPayload, At, NeutralOf;
    TransferNeutral(p, ids);
    SelectedTotal(p, ids, FixedOf);
    SelectedTotal(p, ids, VariableOf);
    SelectedTotal(p, ids, MinimumOf);
    SelectedTotal(p, ids, VolatilityOf);
    SumNonNegative(p.entities);
  }

  lemma Selected(p: Payload, id: string)
    requires ValidPayload(p) && id in p.entityIds
    ensures Find(p.entities, id).Some?
  {
    assert id in IdsOf(p.entities);
    var i :| 0 <= i < |p.entities| && IdsOf(p.entities)[i] == id;
    assert p.entities[i] in p.entities;
  }

  lemma GroupsUsable(p: Payload, groups: map<string, seq<Leg>>, ordered: seq<string>, ids: seq<string>)
    requires ValidPayload(p) && forall id :: id in ids <==> id in p.entityIds
    requires forall id :: id in ordered <==> id in groups
    requires forall id :: id in groups <==> exists leg :: leg in p.legs && leg.transferId == id
    requires forall id :: id in groups ==> groups[id] == LegsFor(p.legs, id)
    ensures forall id :: id in ordered ==> |groups[id]| > 0
    ensures forall id, leg :: id in ordered && leg in groups[id] ==> leg.entityId in ids
    ensures forall leg :: leg in p.legs ==> leg.transferId in ordered
  {
    forall id | id in ordered
      ensures |groups[id]| > 0
    {
      var leg :| leg in p.legs && leg.transferId == id;
      assert Paired(LegsFor(p.legs, leg.transferId));
    }
    forall id, leg | id in ordered && leg in groups[id]
      ensures leg.entityId in ids
    {
      LegListed(p.legs, id, leg);
      assert LegInside(leg, p.entityIds);
    }
  }

  lemma PairsListed(p: Payload, groups: map<string, seq<Leg>>, ordered: seq<string>, pairs: seq<Pair>)
    requires Distinct(ordered) && SortedBy(StrLe, ordered) && forall id :: id in ordered <==> id in groups
    requires forall id :: id in groups <==> exists leg :: leg in p.legs && leg.transferId == id
    requires forall id :: id in groups ==> groups[id] == LegsFor(p.legs, id) && |groups[id]| > 0
    requires |pairs| == |ordered| && forall k :: 0 <= k < |ordered| ==> pairs[k] == PairOf(groups[ordered[k]])
    ensures PairsInOrder(pairs)
    ensures forall x :: x in pairs <==> IsPair(p.legs, x)
  {
    hide StrLe;
    forall k | 0 <= k < |ordered|
      ensures pairs[k].transferId == ordered[k] && IsPair(p.legs, pairs[k])
    {
      GroupHead(p.legs, ordered[k]);
      assert LegsFor(p.legs, ordered[k])[0] in p.legs;
    }
    forall x | IsPair(p.legs, x)
      ensures x in pairs
    {
      var leg :| leg in p.legs && LegsFor(p.legs, leg.transferId) != [] && x == PairOf(LegsFor(p.legs, leg.transferId));
      assert leg.transferId in ordered;
      var k :| 0 <= k < |ordered| && ordered[k] == leg.transferId;
      assert pairs[k] == x;
    }
  }

  lemma GroupHead(legs: seq<Leg>, id: string)
    requires LegsFor(legs, id) != []
    ensures LegsFor(legs, id)[0] in legs && LegsFor(legs, id)[0].transferId == id
  {
    LegListed(legs, id, LegsFor(legs, id)[0]);
  }
}
