// The factory baseline of a query, and the capped union of it with the accepted
// character-fuzzy proposals.
module UnionRank {
  import opened CaseIds
  import EntityProposals
  import opened Products
  import opened Sorting
  import opened Wrappers

  const GLOBAL_CAP: nat := 32
  const NO_POSITION: nat := 1000000
  const FUZZY: string := "char_fuzzy"

  datatype Candidate = Candidate(entityId: string, title: string, channel: string, channelScore: real)

  // A proposal of the lookup, with the number of tokens of the query span that was looked up.
  datatype SpanProposal = SpanProposal(found: EntityProposals.Proposal, spanTokens: int)

  datatype Entity = Entity(id: string, title: string, rankScore: real, position: nat, channels: set<string>,
                           charScore: Option<real>)

  type Entities = map<string, Entity>

  ghost predicate KeyedById(entities: Entities) {
    forall id {:trigger entities[id]} | id in entities :: entities[id].id == id
  }

  function Get(entities: Entities, id: string): Option<Entity> {
    if id in entities then Some(entities[id]) else None
  }

  // ----- the rankings

  // The entity has a channel other than the fuzzy one.
  predicate Supported(e: Entity) { exists channel | channel in e.channels :: channel != FUZZY }

  function Tier(e: Entity): nat { if Supported(e) then 0 else 1 }

  predicate AheadByName(x: Entity, y: Entity, fold: string -> string) {
    if fold(x.title) == fold(y.title) then Le(x.id, y.id) else Le(fold(x.title), fold(y.title))
  }

  predicate Ahead(x: Entity, y: Entity, fold: string -> string) {
    if x.rankScore != y.rankScore then x.rankScore > y.rankScore
    else if Tier(x) != Tier(y) then Tier(x) < Tier(y)
    else if x.position != y.position then x.position < y.position
    else AheadByName(x, y, fold)
  }

  predicate StrictlyAhead(x: Entity, y: Entity, fold: string -> string) {
    Ahead(x, y, fold) && !Ahead(y, x, fold)
  }

  lemma NameOrder(x: Entity, y: Entity, z: Entity, fold: string -> string)
    ensures AheadByName(x, y, fold) || AheadByName(y, x, fold)
    ensures AheadByName(x, y, fold) && AheadByName(y, z, fold) ==> AheadByName(x, z, fold)
    ensures AheadByName(x, y, fold) && AheadByName(y, x, fold) ==> x.id == y.id
  {
    var a, b, c := fold(x.title), fold(y.title), fold(z.title);
    LeTotal(a, b);
    LeTotal(x.id, y.id);
    if a == b && Le(x.id, y.id) && Le(y.id, x.id) { LeAntisymmetric(x.id, y.id); }
    if Le(a, b) && Le(b, a) { LeAntisymmetric(a, b); }
    if Le(a, b) && Le(b, c) {
      LeTransitive(a, b, c);
      if a == c { LeAntisymmetric(a, b); }
    }
    if Le(x.id, y.id) && Le(y.id, z.id) { LeTransitive(x.id, y.id, z.id); }
  }

  lemma AheadIsTotalPreorder(fold: string -> string)
    ensures TotalPreorder((x, y) => Ahead(x, y, fold))
  {
    var le := (x, y) => Ahead(x, y, fold);
    forall x, y ensures le(x, y) || le(y, x) { NameOrder(x, y, y, fold); }
    forall x, y, z | le(x, y) && le(y, z) ensures le(x, z) { NameOrder(x, y, z, fold); }
  }

  // The order is strict between different entities.
  lemma AheadIsStrict(x: Entity, y: Entity, fold: string -> string)
    requires Ahead(x, y, fold) && x.id != y.id
    ensures StrictlyAhead(x, y, fold)
  {
    NameOrder(x, y, y, fold);
  }

  // `top` holds the best `cap` of the entities, best first, each once.
  ghost predicate IsTop(top: seq<Entity>, entities: Entities, cap: nat, fold: string -> string) {
    && |top| == (if |entities| < cap then |entities| else cap)
    && (forall i | 0 <= i < |top| :: Get(entities, top[i].id) == Some(top[i]))
    && (forall i, j | 0 <= i < j < |top| :: top[i].id != top[j].id && StrictlyAhead(top[i], top[j], fold))
    && (forall id | id in entities :: entities[id] in top || AllAhead(top, entities[id], fold))
  }

  ghost predicate AllAhead(top: seq<Entity>, e: Entity, fold: string -> string) {
    forall i | 0 <= i < |top| :: StrictlyAhead(top[i], e, fold)
  }

  // The values of a dict, in some order.
  method Values(entities: Entities) returns (values: seq<Entity>)
    requires KeyedById(entities)
    ensures AreValues(values, entities)
  {
    values := [];
    var rest := entities.Keys;
    while rest != {}
      invariant rest <= entities.Keys && |values| + |rest| == |entities|
      invariant forall i | 0 <= i < |values| :: Get(entities, values[i].id) == Some(values[i]) && values[i].id !in rest
      invariant forall i, j | 0 <= i < j < |values| :: values[i].id != values[j].id
      invariant forall id | id in entities :: id in rest || entities[id] in values
      decreases rest
    {
      var id :| id in rest;
      values := values + [entities[id]];
      rest := rest - {id};
    }
  }

  ghost predicate AreValues(values: seq<Entity>, entities: Entities) {
    && |values| == |entities|
    && (forall i | 0 <= i < |values| :: Get(entities, values[i].id) == Some(values[i]))
    && (forall i, j | 0 <= i < j < |values| :: values[i].id != values[j].id)
    && (forall id | id in entities :: entities[id] in values)
  }

  lemma SortedValues(values: seq<Entity>, sorted: seq<Entity>, entities: Entities)
    requires AreValues(values, entities) && multiset(sorted) == multiset(values)
    ensures AreValues(sorted, entities)
  {
    assert |multiset(sorted)| == |sorted| && |multiset(values)| == |values|;
    forall i | 0 <= i < |sorted| ensures Get(entities, sorted[i].id) == Some(sorted[i]) {
      MemberOfEqualMultisets(sorted, values, i);
    }
    forall i, j | 0 <= i < j < |sorted| ensures sorted[i].id != sorted[j].id {
      PairsSurvive(values, sorted, (x: Entity, y: Entity) => x.id != y.id, i, j);
    }
    forall id | id in entities ensures entities[id] in sorted {
      assert entities[id] in multiset(values);
      assert entities[id] in multiset(sorted);
    }
  }

  ghost predicate InStrictOrder(sorted: seq<Entity>, fold: string -> string) {
    forall i, j | 0 <= i < j < |sorted| :: StrictlyAhead(sorted[i], sorted[j], fold)
  }

  lemma SortedStrictly(values: seq<Entity>, sorted: seq<Entity>, entities: Entities, fold: string -> string)
    requires AreValues(values, entities) && sorted == Sort(values, (x, y) => Ahead(x, y, fold))
    ensures AreValues(sorted, entities) && InStrictOrder(sorted, fold)
  {
    hide Ahead, StrictlyAhead;
    var le := (x, y) => Ahead(x, y, fold);
    AheadIsTotalPreorder(fold);
    SortOrdered(values, le);
    SortedValues(values, sorted, entities);
    forall i, j | 0 <= i < j < |sorted| ensures StrictlyAhead(sorted[i], sorted[j], fold) {
      assert le(sorted[i], sorted[j]);
      AheadIsStrict(sorted[i], sorted[j], fold);
    }
  }

  // The first `cap` of the sorted values of a dict are the top, whatever order it lists them in.
  lemma SortedPrefixIsTop(sorted: seq<Entity>, top: seq<Entity>, entities: Entities, cap: nat, fold: string -> string)
    requires AreValues(sorted, entities) && InStrictOrder(sorted, fold)
    requires top == if cap < |sorted| then sorted[..cap] else sorted
    ensures IsTop(top, entities, cap, fold)
  {
    hide StrictlyAhead, AllAhead;
    PrefixInOrder(sorted, top, fold);
    forall id | id in entities ensures entities[id] in top || AllAhead(top, entities[id], fold) {
      assert entities[id] in sorted;
      PrefixOrBehind(sorted, top, entities[id], fold);
    }
  }

  lemma PrefixInOrder(sorted: seq<Entity>, top: seq<Entity>, fold: string -> string)
    requires InStrictOrder(sorted, fold) && top <= sorted
    ensures InStrictOrder(top, fold)
  {
    hide StrictlyAhead;
  }

  lemma PrefixOrBehind(sorted: seq<Entity>, top: seq<Entity>, e: Entity, fold: string -> string)
    requires InStrictOrder(sorted, fold) && top <= sorted && e in sorted
    ensures e in top || AllAhead(top, e, fold)
  {
    hide StrictlyAhead;
    var k :| 0 <= k < |sorted| && sorted[k] == e;
    if k < |top| {
      assert top[k] == e;
    }
  }

  // ----- factory_baseline

  predicate ExactChannel(channel: string) { channel == "title" || channel == "redirect" || channel == "alias" }

  function RankOf(candidate: Candidate): (rank: real)
    ensures candidate.channel in {"title", "redirect", "alias"} ==> rank == 1.0
    ensures candidate.channel !in {"title", "redirect", "alias"} ==> rank == candidate.channelScore
  {
    if ExactChannel(candidate.channel) then 1.0 else candidate.channelScore
  }

  // The places of one entity among the first n candidates.
  ghost predicate Mine(candidates: seq<Candidate>, id: string, n: nat, k: nat) {
    k < n <= |candidates| && candidates[k].entityId == id
  }

  // The best-ranked candidate of the entity, the earliest among equals.
  ghost predicate IsBest(candidates: seq<Candidate>, id: string, n: nat, best: nat) {
    && Mine(candidates, id, n, best)
    && forall k: nat {:trigger Mine(candidates, id, n, k)} | Mine(candidates, id, n, k) ::
         RankOf(candidates[k]) < RankOf(candidates[best])
         || (RankOf(candidates[k]) == RankOf(candidates[best]) && best <= k)
  }

  ghost predicate HasChannel(candidates: seq<Candidate>, id: string, n: nat, channel: string) {
    exists k: nat :: Mine(candidates, id, n, k) && candidates[k].channel == channel
  }

  // What the baseline holds for one entity after n candidates.
  ghost predicate IsBaseline(found: Option<Entity>, candidates: seq<Candidate>, id: string, n: nat)
    requires n <= |candidates|
  {
    match found
    case None => forall k: nat {:trigger Mine(candidates, id, n, k)} :: !Mine(candidates, id, n, k)
    case Some(e) =>
      && e.id == id && e.charScore.None?
      && IsBest(candidates, id, n, e.position) && e.rankScore == RankOf(candidates[e.position])
      && (forall channel {:trigger channel in e.channels} :: channel in e.channels <==>
        HasChannel(candidates, id, n, channel))
      && exists k: nat :: FirstTitle(candidates, id, n, k, e.title)
  }

  ghost predicate FirstTitle(candidates: seq<Candidate>, id: string, n: nat, k: nat, title: string) {
    Mine(candidates, id, n, k) && candidates[k].title == title && forall l: nat | l < k :: candidates[l].entityId != id
  }

  function WithCandidate(entities: Entities, candidate: Candidate, position: nat): Entities {
    var id, rank := candidate.entityId, RankOf(candidate);
    if id !in entities then
      entities[id := Entity(id, candidate.title, rank, position, {candidate.channel}, None)]
    else
      var current := entities[id].(channels := entities[id].channels + {candidate.channel});
      entities[id := if rank > current.rankScore || (rank == current.rankScore && position < current.position)
                     then current.(rankScore := rank, position := position) else current]
  }

  lemma OthersUntouched(candidates: seq<Candidate>, id: string, n: nat, found: Option<Entity>)
    requires n < |candidates| && candidates[n].entityId != id && IsBaseline(found, candidates, id, n)
    ensures IsBaseline(found, candidates, id, n + 1)
  {
    var m := n + 1;
    assert forall k: nat {:trigger Mine(candidates, id, m, k)} :: Mine(candidates, id, m, k) ==>
      Mine(candidates, id, n, k);
    assert forall k: nat {:trigger Mine(candidates, id, n, k)} :: Mine(candidates, id, n, k) ==>
      Mine(candidates, id, m, k);
    if found.Some? {
      forall channel ensures HasChannel(candidates, id, n, channel) <==> HasChannel(candidates, id, m, channel) {
      }
      var k: nat :| FirstTitle(candidates, id, n, k, found.value.title);
      assert FirstTitle(candidates, id, m, k, found.value.title);
    }
  }

  lemma FirstOfEntity(candidates: seq<Candidate>, id: string, n: nat, e: Entity)
    requires n < |candidates| && candidates[n].entityId == id && IsBaseline(None, candidates, id, n)
    requires e == Entity(id, candidates[n].title, RankOf(candidates[n]), n, {candidates[n].channel}, None)
    ensures IsBaseline(Some(e), candidates, id, n + 1)
  {
    var m := n + 1;
    assert forall k: nat {:trigger Mine(candidates, id, m, k)} :: Mine(candidates, id, m, k) ==>
      k == n || Mine(candidates, id, n, k);
    assert Mine(candidates, id, m, n);
    forall channel ensures channel == candidates[n].channel <==> HasChannel(candidates, id, m, channel) {
    }
    forall l: nat | l < n ensures candidates[l].entityId != id {
      assert !Mine(candidates, id, n, l);
    }
    assert FirstTitle(candidates, id, m, n, e.title);
  }

  lemma NextOfEntity(candidates: seq<Candidate>, id: string, n: nat, before: Entity, after: Entity)
    requires n < |candidates| && candidates[n].entityId == id && IsBaseline(Some(before), candidates, id, n)
    requires after.id == id && after.title == before.title && after.charScore.None?
    requires after.channels == before.channels + {candidates[n].channel}
    requires var better := RankOf(candidates[n]) > before.rankScore;
      && after.rankScore == (if better then RankOf(candidates[n]) else before.rankScore)
      && after.position == (if better then n else before.position)
    ensures IsBaseline(Some(after), candidates, id, n + 1)
  {
    var m := n + 1;
    assert forall k: nat {:trigger Mine(candidates, id, m, k)} :: Mine(candidates, id, m, k) ==>
      k == n || Mine(candidates, id, n, k);
    assert forall k: nat {:trigger Mine(candidates, id, n, k)} :: Mine(candidates, id, n, k) ==>
      Mine(candidates, id, m, k);
    assert Mine(candidates, id, m, n) && Mine(candidates, id, m, before.position);
    assert IsBest(candidates, id, m, after.position);
    forall channel ensures channel in after.channels <==> HasChannel(candidates, id, m, channel) {
      assert channel in before.channels <==> HasChannel(candidates, id, n, channel);
    }
    var k: nat :| FirstTitle(candidates, id, n, k, before.title);
    assert FirstTitle(candidates, id, m, k, before.title);
  }

  lemma BaselineStep(entities: Entities, candidates: seq<Candidate>, n: nat, id: string)
    requires n < |candidates| && IsBaseline(Get(entities, id), candidates, id, n)
    ensures IsBaseline(Get(WithCandidate(entities, candidates[n], n), id), candidates, id, n + 1)
  {
    hide IsBaseline, IsBest;
    var after := WithCandidate(entities, candidates[n], n);
    if id != candidates[n].entityId {
      OthersUntouched(candidates, id, n, Get(entities, id));
    } else if id !in entities {
      FirstOfEntity(candidates, id, n, after[id]);
    } else {
      EarlierPosition(entities[id], candidates, id, n);
      NextOfEntity(candidates, id, n, entities[id], after[id]);
    }
  }

  lemma EarlierPosition(e: Entity, candidates: seq<Candidate>, id: string, n: nat)
    requires n <= |candidates| && IsBaseline(Some(e), candidates, id, n)
    ensures e.position < n && e.id == id && e.charScore.None?
  {
  }

  ghost predicate AreBaseline(entities: Entities, candidates: seq<Candidate>, n: nat)
    requires n <= |candidates|
  {
    forall id {:trigger Get(entities, id)} :: IsBaseline(Get(entities, id), candidates, id, n)
  }

  predicate BaselineBefore(x: Entity, y: Entity) {
    if x.rankScore != y.rankScore then x.rankScore > y.rankScore
    else if x.position != y.position then x.position < y.position
    else Le(x.id, y.id)
  }

  lemma BaselineKeyed(entities: Entities, candidates: seq<Candidate>, n: nat)
    requires n <= |candidates| && AreBaseline(entities, candidates, n)
    ensures KeyedById(entities)
  {
    forall id | id in entities ensures entities[id].id == id {
      assert Get(entities, id) == Some(entities[id]);
    }
  }

  // `factory_baseline`: each entity once, with its best candidate's rank and place and all its channels,
  // best first.
  method FactoryBaseline(candidates: seq<Candidate>) returns (baseline: seq<Entity>, ghost entities: Entities)
    ensures AreBaseline(entities, candidates, |candidates|) && AreValues(baseline, entities)
    ensures InBaselineOrder(baseline)
  {
    var byEntity: Entities := map[];
    for position := 0 to |candidates|
      invariant AreBaseline(byEntity, candidates, position)
    {
      ghost var before := byEntity;
      byEntity := WithCandidate(byEntity, candidates[position], position);
      forall id ensures IsBaseline(Get(byEntity, id), candidates, id, position + 1) {
        assert IsBaseline(Get(before, id), candidates, id, position);
        BaselineStep(before, candidates, position, id);
      }
    }
    BaselineKeyed(byEntity, candidates, |candidates|);
    var values := Values(byEntity);
    baseline, entities := Sort(values, BaselineBefore), byEntity;
    SortedValues(values, baseline, byEntity);
    BaselineOrdered(values);
    PlacesDiffer(baseline, byEntity, candidates);
  }

  // Best rank first, among equal ranks the earliest place first.
  ghost predicate InBaselineOrder(baseline: seq<Entity>) {
    forall i, j | 0 <= i < j < |baseline| ::
      baseline[i].rankScore > baseline[j].rankScore
      || (baseline[i].rankScore == baseline[j].rankScore && baseline[i].position < baseline[j].position)
  }

  lemma PlacesDiffer(baseline: seq<Entity>, entities: Entities, candidates: seq<Candidate>)
    requires AreBaseline(entities, candidates, |candidates|) && AreValues(baseline, entities)
    requires Ordered(baseline, BaselineBefore)
    ensures InBaselineOrder(baseline)
  {
    forall i | 0 <= i < |baseline|
      ensures Mine(candidates, baseline[i].id, |candidates|, baseline[i].position)
    {
      assert Get(entities, baseline[i].id) == Some(baseline[i]);
      assert IsBaseline(Some(baseline[i]), candidates, baseline[i].id, |candidates|);
    }
    forall i, j | 0 <= i < j < |baseline| ensures baseline[i].position != baseline[j].position {
      assert baseline[i].id != baseline[j].id;
    }
    assert forall i, j | 0 <= i < j < |baseline| :: BaselineBefore(baseline[i], baseline[j]);
  }

  lemma BaselineOrdered(values: seq<Entity>)
    ensures Ordered(Sort(values, BaselineBefore), BaselineBefore)
  {
    LeIsTotalPreorder();
    SortOrdered(values, BaselineBefore);
  }

  // ----- union_rank

  datatype Gate = Gate(threshold: real, weight: real, maxSpanTokens: int)

  predicate Accepted(p: SpanProposal, gate: Gate) {
    p.spanTokens <= gate.maxSpanTokens && !(p.found.score < gate.threshold)
  }

  function Weighted(p: SpanProposal, gate: Gate): real { p.found.score * gate.weight }

  // The accepted proposals, and those of one entity, in order.
  function AcceptedOf(fuzzy: seq<SpanProposal>, gate: Gate): (accepted: seq<SpanProposal>)
    ensures forall p :: p in accepted <==>
      p in fuzzy && p.spanTokens <= gate.maxSpanTokens && p.found.score >= gate.threshold
  {
    if fuzzy == [] then []
    else
      var last := fuzzy[|fuzzy| - 1];
      assert fuzzy == fuzzy[..|fuzzy| - 1] + [last];
      AcceptedOf(fuzzy[..|fuzzy| - 1], gate) + if Accepted(last, gate) then [last] else []
  }

  lemma AcceptedNext(fuzzy: seq<SpanProposal>, k: nat, gate: Gate)
    requires k < |fuzzy|
    ensures AcceptedOf(fuzzy[..k + 1], gate) ==
      if Accepted(fuzzy[k], gate) then AcceptedOf(fuzzy[..k], gate) + [fuzzy[k]] else AcceptedOf(fuzzy[..k], gate)
  {
    assert fuzzy[..k + 1][..k] == fuzzy[..k];
  }

  function For(accepted: seq<SpanProposal>, id: string): (mine: seq<SpanProposal>)
    ensures forall k | 0 <= k < |mine| :: mine[k] in accepted && mine[k].found.entity == id
  {
    if accepted == [] then []
    else
      var last := accepted[|accepted| - 1];
      For(accepted[..|accepted| - 1], id) + if last.found.entity == id then [last] else []
  }

  // The baseline by id; a repeated id keeps its last entity.
  function FromList(baseline: seq<Entity>): (entities: Entities)
    ensures KeyedById(entities)
  {
    if baseline == [] then map[]
    else FromList(baseline[..|baseline| - 1])[baseline[|baseline| - 1].id := baseline[|baseline| - 1]]
  }

  lemma {:induction false} FromListMember(baseline: seq<Entity>, id: string)
    ensures id in FromList(baseline) <==> exists k :: 0 <= k < |baseline| && baseline[k].id == id
    ensures id in FromList(baseline) ==> FromList(baseline)[id] in baseline
  {
    if baseline != [] {
      var n := |baseline| - 1;
      FromListMember(baseline[..n], id);
      if k :| 0 <= k < |baseline| && baseline[k].id == id {
        assert k < n ==> baseline[..n][k].id == id;
      }
    }
  }

  lemma FromListOfValues(baseline: seq<Entity>, entities: Entities)
    requires AreValues(baseline, entities) && KeyedById(entities)
    ensures FromList(baseline) == entities
  {
    forall id ensures id in FromList(baseline) <==> id in entities
      ensures id in entities ==> FromList(baseline)[id] == entities[id]
    {
      FromListMember(baseline, id);
      if id in entities {
        assert entities[id] in baseline && entities[id].id == id;
        var k :| 0 <= k < |baseline| && baseline[k] == entities[id];
      }
      if k :| 0 <= k < |baseline| && baseline[k].id == id {
        assert Get(entities, baseline[k].id) == Some(baseline[k]);
        var found := FromList(baseline)[id];
        assert found in baseline && found.id == id;
        var l :| 0 <= l < |baseline| && baseline[l] == found;
        assert Get(entities, baseline[l].id) == Some(baseline[l]);
      }
    }
  }

  // The score is the greatest of the baseline's and the weighted proposals'.
  ghost predicate IsGreatest(score: real, base: Option<Entity>, mine: seq<SpanProposal>, gate: Gate) {
    && (base.Some? ==> base.value.rankScore <= score)
    && (forall k | 0 <= k < |mine| :: Weighted(mine[k], gate) <= score)
    && ((base.Some? && score == base.value.rankScore) || exists k | 0 <= k < |mine| :: score == Weighted(mine[k], gate))
  }

  // What the union holds for one entity, from what the baseline held and its accepted proposals.
  ghost predicate IsUnion(found: Option<Entity>, base: Option<Entity>, mine: seq<SpanProposal>, gate: Gate,
                          id: string) {
    if base.None? && mine == [] then found.None?
    else
      && found.Some? && found.value.id == id
      && found.value.title == (if base.Some? then base.value.title else mine[0].found.title)
      && found.value.position == (if base.Some? then base.value.position else NO_POSITION)
      && found.value.channels == (if base.Some? then base.value.channels else {}) + (if mine == [] then {} else {FUZZY})
      && found.value.charScore == (if mine == [] then base.value.charScore else Some(mine[|mine| - 1].found.score))
      && IsGreatest(found.value.rankScore, base, mine, gate)
  }

  ghost predicate AreUnion(merged: Entities, base: Entities, accepted: seq<SpanProposal>, gate: Gate) {
    forall id {:trigger Get(merged, id)} :: IsUnion(Get(merged, id), Get(base, id), For(accepted, id), gate, id)
  }

  function WithProposal(entities: Entities, p: SpanProposal, gate: Gate): Entities {
    var rank := Weighted(p, gate);
    if p.found.entity in entities then
      var current := entities[p.found.entity];
      entities[p.found.entity := current.(channels := current.channels + {FUZZY}, charScore := Some(p.found.score),
                                      rankScore := if rank > current.rankScore then rank else current.rankScore)]
    else
      entities[p.found.entity := Entity(p.found.entity, p.found.title, rank, NO_POSITION, {FUZZY}, Some(p.found.score))]
  }

  lemma GreatestSoFar(score: real, base: Option<Entity>, mine: seq<SpanProposal>, p: SpanProposal, gate: Gate)
    requires IsGreatest(score, base, mine, gate)
    ensures IsGreatest(if Weighted(p, gate) > score then Weighted(p, gate) else score, base, mine + [p], gate)
  {
    var more := mine + [p];
    assert more[|mine|] == p;
    if k :| 0 <= k < |mine| && score == Weighted(mine[k], gate) {
      assert more[k] == mine[k];
    }
  }

  lemma ForNext(accepted: seq<SpanProposal>, p: SpanProposal, id: string)
    ensures For(accepted + [p], id) == For(accepted, id) + if p.found.entity == id then [p] else []
  {
    assert (accepted + [p])[..|accepted|] == accepted;
  }

  lemma UnionStep(merged: Entities, base: Entities, accepted: seq<SpanProposal>, p: SpanProposal, gate: Gate,
                  id: string)
    requires IsUnion(Get(merged, id), Get(base, id), For(accepted, id), gate, id)
    ensures IsUnion(Get(WithProposal(merged, p, gate), id), Get(base, id), For(accepted + [p], id), gate, id)
  {
    hide IsUnion, For;
    ForNext(accepted, p, id);
    var mine := For(accepted, id);
    if p.found.entity == id {
      UnionOfOne(Get(merged, id), Get(base, id), mine, p, gate, Get(WithProposal(merged, p, gate), id).value);
    } else {
      assert mine + [] == mine;
    }
  }

  lemma UnionOfOne(found: Option<Entity>, base: Option<Entity>, mine: seq<SpanProposal>, p: SpanProposal, gate: Gate,
                   after: Entity)
    requires IsUnion(found, base, mine, gate, p.found.entity)
    requires after == match found
      case Some(current) =>
        current.(channels := current.channels + {FUZZY}, charScore := Some(p.found.score),
                 rankScore := if Weighted(p, gate) > current.rankScore then Weighted(p, gate) else current.rankScore)
      case None => Entity(p.found.entity, p.found.title, Weighted(p, gate), NO_POSITION, {FUZZY}, Some(p.found.score))
    ensures IsUnion(Some(after), base, mine + [p], gate, p.found.entity)
  {
    var more := mine + [p];
    assert more[|mine|] == p && |more| == |mine| + 1;
    assert mine != [] ==> more[0] == mine[0];
    if found.Some? {
      hide IsGreatest;
      GreatestSoFar(found.value.rankScore, base, mine, p, gate);
      assert after.channels == (if base.Some? then base.value.channels else {}) + {FUZZY};
    } else {
      assert more == [p];
    }
  }

  lemma UnionStart(base: Entities, gate: Gate)
    requires KeyedById(base)
    ensures AreUnion(base, base, [], gate)
  {
  }

  // `union_rank`: the top of the union, the number of entities before the cap, and the number of
  // accepted proposals.
  method Union(baseline: seq<Entity>, fuzzy: seq<SpanProposal>, gate: Gate, fold: string -> string)
    returns (top: seq<Entity>, total: nat, accepted: nat, ghost merged: Entities)
    ensures AreUnion(merged, FromList(baseline), AcceptedOf(fuzzy, gate), gate)
    ensures IsTop(top, merged, GLOBAL_CAP, fold) && RankedByKeys(top, fold)
    ensures total == |merged| && accepted == |AcceptedOf(fuzzy, gate)| && |top| == if total < 32 then total else 32
  {
    hide IsUnion, WithProposal, RankedByKeys;
    var byEntity := FromList(baseline);
    ghost var base := byEntity;
    accepted := 0;
    UnionStart(base, gate);
    for k := 0 to |fuzzy|
      invariant AreUnion(byEntity, base, AcceptedOf(fuzzy[..k], gate), gate)
      invariant accepted == |AcceptedOf(fuzzy[..k], gate)|
    {
      AcceptedNext(fuzzy, k, gate);
      if Accepted(fuzzy[k], gate) {
        accepted := accepted + 1;
        ghost var before, proposals := byEntity, AcceptedOf(fuzzy[..k], gate);
        byEntity := WithProposal(byEntity, fuzzy[k], gate);
        forall id ensures IsUnion(Get(byEntity, id), Get(base, id), For(proposals + [fuzzy[k]], id), gate, id) {
          assert IsUnion(Get(before, id), Get(base, id), For(proposals, id), gate, id);
          UnionStep(before, base, proposals, fuzzy[k], gate, id);
        }
      }
    }
    assert fuzzy[..|fuzzy|] == fuzzy;
    merged := byEntity;
    UnionKeyed(merged, base, AcceptedOf(fuzzy, gate), gate);
    var values := Values(byEntity);
    var ranked := Sort(values, (x, y) => Ahead(x, y, fold));
    SortedStrictly(values, ranked, byEntity, fold);
    top := if GLOBAL_CAP < |ranked| then ranked[..GLOBAL_CAP] else ranked;
    SortedPrefixIsTop(ranked, top, byEntity, GLOBAL_CAP, fold);
    TopByKeys(top, byEntity, GLOBAL_CAP, fold);
    total := |ranked|;
  }

  // Scores fall; among equals, entities with a channel of the factory come first, then earlier places, then folded
  // titles, then ids.
  ghost predicate RankedByKeys(top: seq<Entity>, fold: string -> string) {
    forall i, j | 0 <= i < j < |top| :: ByKeys(top[i], top[j], fold)
  }

  ghost predicate FromFactory(e: Entity) { exists c :: c in e.channels && c != "char_fuzzy" }

  ghost predicate ByKeys(x: Entity, y: Entity, fold: string -> string) {
    && x.rankScore >= y.rankScore
    && (x.rankScore == y.rankScore && FromFactory(y) ==> FromFactory(x))
    && (x.rankScore == y.rankScore && (FromFactory(x) <==> FromFactory(y)) ==>
          && x.position <= y.position
          && (x.position == y.position ==> Le(fold(x.title), fold(y.title)))
          && (x.position == y.position && fold(x.title) == fold(y.title) ==> Le(x.id, y.id)))
  }

  lemma AheadByKeys(x: Entity, y: Entity, fold: string -> string)
    requires Ahead(x, y, fold)
    ensures ByKeys(x, y, fold)
  {
    LeTotal(fold(x.title), fold(x.title));
  }

  lemma TopByKeys(top: seq<Entity>, entities: Entities, cap: nat, fold: string -> string)
    requires IsTop(top, entities, cap, fold)
    ensures RankedByKeys(top, fold)
  {
    hide Ahead, ByKeys;
    forall i, j | 0 <= i < j < |top| ensures ByKeys(top[i], top[j], fold) {
      assert StrictlyAhead(top[i], top[j], fold);
      AheadByKeys(top[i], top[j], fold);
    }
  }

  // ----- the baseline order is kept

  lemma BaselineAhead(x: Entity, y: Entity, fold: string -> string)
    requires FromFactory(x) && FromFactory(y)
    requires x.rankScore > y.rankScore || (x.rankScore == y.rankScore && x.position < y.position)
    ensures StrictlyAhead(x, y, fold)
  {
  }

  // Who is strictly ahead of a ranked entity is ranked before it.
  lemma AheadIsBefore(top: seq<Entity>, entities: Entities, cap: nat, fold: string -> string, x: string, b: nat)
    requires IsTop(top, entities, cap, fold) && x in entities && b < |top|
    requires StrictlyAhead(entities[x], top[b], fold)
    ensures exists a :: 0 <= a < b && top[a] == entities[x]
  {
    hide Ahead;
    assert entities[x] in top || AllAhead(top, entities[x], fold);
    var a :| 0 <= a < |top| && top[a] == entities[x];
  }

  lemma BaselineFromFactory(baseline: seq<Entity>, entities: Entities, candidates: seq<Candidate>)
    requires AreBaseline(entities, candidates, |candidates|) && AreValues(baseline, entities)
    requires forall k | 0 <= k < |candidates| :: candidates[k].channel != "char_fuzzy"
    ensures forall i | 0 <= i < |baseline| :: FromFactory(baseline[i])
  {
    forall i | 0 <= i < |baseline| ensures FromFactory(baseline[i]) {
      assert Get(entities, baseline[i].id) == Some(baseline[i]);
      ChannelOfPlace(candidates, baseline[i]);
    }
  }

  lemma ChannelOfPlace(candidates: seq<Candidate>, e: Entity)
    requires IsBaseline(Some(e), candidates, e.id, |candidates|)
    ensures e.position < |candidates| && candidates[e.position].channel in e.channels
  {
    assert Mine(candidates, e.id, |candidates|, e.position);
    assert HasChannel(candidates, e.id, |candidates|, candidates[e.position].channel);
  }

  lemma {:induction false} NoneFor(accepted: seq<SpanProposal>, id: string)
    requires forall p | p in accepted :: p.found.entity != id
    ensures For(accepted, id) == []
  {
    if accepted != [] {
      assert accepted[|accepted| - 1] in accepted;
      NoneFor(accepted[..|accepted| - 1], id);
    }
  }

  // An entity of the baseline without accepted proposals is taken over as it is.
  lemma UntouchedKept(baseline: seq<Entity>, base: Entities, merged: Entities, accepted: seq<SpanProposal>, gate: Gate,
                      i: nat)
    requires AreValues(baseline, base) && AreUnion(merged, base, accepted, gate)
    requires i < |baseline| && forall p | p in accepted :: p.found.entity != baseline[i].id
    ensures baseline[i].id in merged && merged[baseline[i].id] == baseline[i]
  {
    var e := baseline[i];
    var mine := For(accepted, e.id);
    NoneFor(accepted, e.id);
    assert Get(base, e.id) == Some(e);
    assert IsUnion(Get(merged, e.id), Some(e), mine, gate, e.id);
    assert merged[e.id].channels == e.channels + {} == e.channels;
  }

  // Two factory entities that no accepted proposal names keep their order in the ranking, and the cap never drops the
  // first before the second.
  lemma BaselineOrderKept(baseline: seq<Entity>, base: Entities, merged: Entities, accepted: seq<SpanProposal>,
                          gate: Gate, fold: string -> string, top: seq<Entity>, i: nat, j: nat, b: nat)
    requires AreValues(baseline, base) && InBaselineOrder(baseline) && AreUnion(merged, base, accepted, gate)
    requires IsTop(top, merged, GLOBAL_CAP, fold)
    requires i < j < |baseline| && FromFactory(baseline[i]) && FromFactory(baseline[j])
    requires forall p | p in accepted :: p.found.entity != baseline[i].id && p.found.entity != baseline[j].id
    requires b < |top| && top[b].id == baseline[j].id
    ensures top[b] == baseline[j] && exists a :: 0 <= a < b && top[a] == baseline[i]
  {
    hide AreUnion, StrictlyAhead, FromFactory;
    UntouchedKept(baseline, base, merged, accepted, gate, i);
    UntouchedKept(baseline, base, merged, accepted, gate, j);
    assert Get(merged, top[b].id) == Some(top[b]);
    BaselineAhead(baseline[i], baseline[j], fold);
    AheadIsBefore(top, merged, GLOBAL_CAP, fold, baseline[i].id, b);
  }

  lemma PrefixElsewhere(a: seq<Entity>, b: seq<Entity>, entities: Entities, cap: nat, fold: string -> string, k: nat,
                        m: nat)
    requires IsTop(b, entities, cap, fold) && k < |b| == |a| && a[..k] == b[..k]
    ensures m < k ==> a[m].id != b[k].id
  {
    hide StrictlyAhead;
    assert m < k ==> a[m] == a[..k][m] == b[m];
  }

  lemma TopAgreesAt(a: seq<Entity>, b: seq<Entity>, entities: Entities, cap: nat, fold: string -> string, k: nat)
    requires IsTop(a, entities, cap, fold) && IsTop(b, entities, cap, fold)
    requires k < |a| == |b| && a[..k] == b[..k]
    ensures a[k] == b[k] || StrictlyAhead(a[k], b[k], fold)
  {
    hide StrictlyAhead;
    assert Get(entities, b[k].id) == Some(b[k]);
    if b[k] in a {
      var m :| 0 <= m < |a| && a[m] == b[k];
      PrefixElsewhere(a, b, entities, cap, fold, k, m);
    } else {
      assert AllAhead(a, b[k], fold);
    }
  }

  // There is one top.
  lemma {:induction false} TopUnique(a: seq<Entity>, b: seq<Entity>, entities: Entities, cap: nat,
                                     fold: string -> string, k: nat)
    requires IsTop(a, entities, cap, fold) && IsTop(b, entities, cap, fold) && k <= |a|
    ensures a[..k] == b[..k]
  {
    hide IsTop, Ahead;
    SameTopSize(a, b, entities, cap, fold);
    if k > 0 {
      TopUnique(a, b, entities, cap, fold, k - 1);
      TopAgreesAt(a, b, entities, cap, fold, k - 1);
      TopAgreesAt(b, a, entities, cap, fold, k - 1);
    }
  }

  lemma SameTopSize(a: seq<Entity>, b: seq<Entity>, entities: Entities, cap: nat, fold: string -> string)
    requires IsTop(a, entities, cap, fold) && IsTop(b, entities, cap, fold)
    ensures |a| == |b|
  {
  }

  lemma NothingAccepted(base: Entities, merged: Entities, gate: Gate)
    requires KeyedById(base) && AreUnion(merged, base, [], gate)
    ensures merged == base
  {
    forall id ensures Get(merged, id) == Get(base, id) {
      assert IsUnion(Get(merged, id), Get(base, id), For([], id), gate, id);
      if id in base {
        assert merged[id].channels == base[id].channels + {} == base[id].channels;
      }
    }
    forall id ensures id in merged <==> id in base
      ensures id in base ==> merged[id] == base[id]
    {
      assert Get(merged, id) == Get(base, id);
    }
  }

  // Without accepted proposals the ranking is the head of the baseline.
  lemma BaselineAloneKept(baseline: seq<Entity>, base: Entities, merged: Entities, gate: Gate, fold: string -> string,
                          top: seq<Entity>)
    requires AreValues(baseline, base) && KeyedById(base) && InBaselineOrder(baseline)
    requires AreUnion(merged, base, [], gate) && IsTop(top, merged, GLOBAL_CAP, fold)
    requires forall i | 0 <= i < |baseline| :: FromFactory(baseline[i])
    ensures top == if GLOBAL_CAP < |baseline| then baseline[..GLOBAL_CAP] else baseline
  {
    hide AreUnion, StrictlyAhead, FromFactory, IsTop, AreValues;
    NothingAccepted(base, merged, gate);
    forall i, j | 0 <= i < j < |baseline| ensures StrictlyAhead(baseline[i], baseline[j], fold) {
      BaselineAhead(baseline[i], baseline[j], fold);
    }
    var head := if GLOBAL_CAP < |baseline| then baseline[..GLOBAL_CAP] else baseline;
    SortedPrefixIsTop(baseline, head, base, GLOBAL_CAP, fold);
    SameTopSize(top, head, base, GLOBAL_CAP, fold);
    TopUnique(top, head, base, GLOBAL_CAP, fold, |top|);
    assert top[..|top|] == top && head[..|top|] == head;
  }

  lemma UnionKeyed(merged: Entities, base: Entities, accepted: seq<SpanProposal>, gate: Gate)
    requires AreUnion(merged, base, accepted, gate)
    ensures KeyedById(merged)
  {
    forall id | id in merged ensures merged[id].id == id {
      assert Get(merged, id) == Some(merged[id]);
    }
  }

  // ----- what the ranking promises

  // The entities are exactly those of the baseline and of the accepted proposals.
  lemma UnionMembers(merged: Entities, base: Entities, accepted: seq<SpanProposal>, gate: Gate, id: string)
    requires AreUnion(merged, base, accepted, gate)
    ensures id in merged <==> id in base || For(accepted, id) != []
    ensures id in base ==> merged[id].rankScore >= base[id].rankScore && merged[id].channels >= base[id].channels
  {
    assert IsUnion(Get(merged, id), Get(base, id), For(accepted, id), gate, id);
  }

  ghost predicate Contributes(p: SpanProposal, accepted: seq<SpanProposal>, id: string, score: real, weight: real) {
    p in accepted && p.found.entity == id && score == p.found.score * weight
  }

  // The score of an entity is the greatest of its baseline score and the weighted scores of its accepted proposals.
  lemma UnionScores(merged: Entities, base: Entities, accepted: seq<SpanProposal>, gate: Gate, id: string,
                    p: SpanProposal)
    requires AreUnion(merged, base, accepted, gate)
    ensures p in accepted && p.found.entity == id ==>
      id in merged && merged[id].rankScore >= p.found.score * gate.weight && "char_fuzzy" in merged[id].channels
    ensures id in merged ==>
      || (id in base && merged[id].rankScore == base[id].rankScore)
      || exists q :: Contributes(q, accepted, id, merged[id].rankScore, gate.weight)
  {
    hide For;
    var mine := For(accepted, id);
    assert IsUnion(Get(merged, id), Get(base, id), mine, gate, id);
    if p in accepted && p.found.entity == id {
      ForHolds(accepted, id, p);
    }
    if id in merged && !(id in base && merged[id].rankScore == base[id].rankScore) {
      var k :| 0 <= k < |mine| && merged[id].rankScore == Weighted(mine[k], gate);
      assert Contributes(mine[k], accepted, id, merged[id].rankScore, gate.weight);
    }
  }

  lemma {:induction false} ForHolds(accepted: seq<SpanProposal>, id: string, p: SpanProposal)
    requires p in accepted && p.found.entity == id
    ensures p in For(accepted, id)
  {
    var n := |accepted| - 1;
    assert accepted == accepted[..n] + [accepted[n]];
    if p in accepted[..n] { ForHolds(accepted[..n], id, p); }
  }

  predicate Exact(e: Entity) { exists channel | channel in e.channels :: ExactChannel(channel) }

  lemma ProductInUnit(score: real, weight: real)
    requires 0.0 <= score <= 1.0 && weight <= 1.0
    ensures score * weight <= 1.0
  {
    ProductNonnegative(score, 1.0 - weight);
    TimesComplement(score, weight);
  }

  // An entity the baseline reached by title, redirect or alias has the full score.
  lemma ExactHasFullScore(candidates: seq<Candidate>, base: Entities, id: string)
    requires AreBaseline(base, candidates, |candidates|) && id in base && Exact(base[id])
    ensures base[id].rankScore >= 1.0
  {
    var n := |candidates|;
    assert IsBaseline(Get(base, id), candidates, id, n);
    var channel :| channel in base[id].channels && ExactChannel(channel);
    assert HasChannel(candidates, id, n, channel);
    var k: nat :| Mine(candidates, id, n, k) && candidates[k].channel == channel;
    assert RankOf(candidates[k]) == 1.0;
  }

  // With character scores in [0, 1] and a weight of at most 1, no entity that only proposals brought in
  // is ranked before one that the baseline reached by title, redirect or alias.
  lemma FuzzyStaysBehindExact(candidates: seq<Candidate>, base: Entities, merged: Entities, accepted: seq<SpanProposal>,
                              gate: Gate, fold: string -> string, exact: string, fuzzy: string)
    requires AreBaseline(base, candidates, |candidates|) && AreUnion(merged, base, accepted, gate)
    requires gate.weight <= 1.0 && forall p | p in accepted :: 0.0 <= p.found.score <= 1.0
    requires exact in base && Exact(base[exact])
    requires fuzzy in merged && fuzzy !in base
    ensures exact in merged && StrictlyAhead(merged[exact], merged[fuzzy], fold)
  {
    hide StrictlyAhead, Ahead, AreBaseline, AreUnion;
    ExactHasFullScore(candidates, base, exact);
    UnionMembers(merged, base, accepted, gate, exact);
    FuzzyOnly(base, merged, accepted, gate, fuzzy);
    ExactIsSupported(base[exact], merged[exact]);
    TierDecides(merged[exact], merged[fuzzy], fold);
  }

  lemma ExactIsSupported(before: Entity, after: Entity)
    requires Exact(before) && after.channels >= before.channels
    ensures Supported(after)
  {
    var channel :| channel in before.channels && ExactChannel(channel);
    assert channel in after.channels && channel != FUZZY;
  }

  // An entity that only proposals brought in has their channel alone and a score of at most one.
  lemma FuzzyOnly(base: Entities, merged: Entities, accepted: seq<SpanProposal>, gate: Gate, id: string)
    requires AreUnion(merged, base, accepted, gate) && id in merged && id !in base
    requires gate.weight <= 1.0 && forall p | p in accepted :: 0.0 <= p.found.score <= 1.0
    ensures merged[id].rankScore <= 1.0 && !Supported(merged[id])
  {
    hide IsGreatest, For;
    var mine := For(accepted, id);
    assert IsUnion(Get(merged, id), Get(base, id), mine, gate, id);
    GreatestInUnit(merged[id].rankScore, mine, gate);
    assert merged[id].channels == {FUZZY};
  }

  lemma GreatestInUnit(rank: real, mine: seq<SpanProposal>, gate: Gate)
    requires IsGreatest(rank, None, mine, gate) && gate.weight <= 1.0
    requires forall k | 0 <= k < |mine| :: 0.0 <= mine[k].found.score <= 1.0
    ensures rank <= 1.0
  {
    var k :| 0 <= k < |mine| && rank == Weighted(mine[k], gate);
    ProductInUnit(mine[k].found.score, gate.weight);
  }

  lemma TierDecides(e: Entity, f: Entity, fold: string -> string)
    requires e.rankScore >= 1.0 >= f.rankScore && Supported(e) && !Supported(f)
    ensures StrictlyAhead(e, f, fold)
  {
  }

  // So the cap never drops such an entity in favour of one that only proposals brought in.
  lemma CapKeepsExactFirst(candidates: seq<Candidate>, base: Entities, merged: Entities, accepted: seq<SpanProposal>,
                           gate: Gate, fold: string -> string, top: seq<Entity>, exact: string)
    requires AreBaseline(base, candidates, |candidates|) && AreUnion(merged, base, accepted, gate)
    requires gate.weight <= 1.0 && forall p | p in accepted :: 0.0 <= p.found.score <= 1.0
    requires IsTop(top, merged, GLOBAL_CAP, fold)
    requires exact in base && Exact(base[exact])
    ensures exact in merged
    ensures merged[exact] !in top ==> |top| == GLOBAL_CAP && forall i | 0 <= i < |top| :: top[i].id in base
  {
    UnionMembers(merged, base, accepted, gate, exact);
    if merged[exact] !in top {
      assert AllAhead(top, merged[exact], fold);
      forall i | 0 <= i < |top| ensures top[i].id in base {
        assert Get(merged, top[i].id) == Some(top[i]);
        if top[i].id !in base {
          FuzzyStaysBehindExact(candidates, base, merged, accepted, gate, fold, exact, top[i].id);
          assert false;
        }
      }
      LeftOutMeansFull(top, merged, fold, exact);
    }
  }

  lemma LeftOutMeansFull(top: seq<Entity>, merged: Entities, fold: string -> string, id: string)
    requires IsTop(top, merged, GLOBAL_CAP, fold) && id in merged && merged[id] !in top
    ensures |top| == GLOBAL_CAP
  {
    if |top| == |merged| {
      WholeTop(top, merged, fold, id);
    }
  }

  lemma WholeTop(top: seq<Entity>, merged: Entities, fold: string -> string, id: string)
    requires IsTop(top, merged, GLOBAL_CAP, fold) && id in merged && |top| == |merged|
    ensures merged[id] in top
  {
    hide StrictlyAhead;
    IdsOfDistinct(top);
    var ids := IdsOf(top);
    IdsOfMember(top, id);
    forall other | other in ids ensures other in merged.Keys {
      IdsOfMember(top, other);
      var k :| 0 <= k < |top| && top[k].id == other;
      assert Get(merged, top[k].id) == Some(top[k]);
    }
    assert |merged.Keys - ids| == 0;
    assert id in ids;
    var k :| 0 <= k < |top| && top[k].id == id;
    assert Get(merged, top[k].id) == Some(top[k]);
  }

  ghost function IdsOf(top: seq<Entity>): set<string> {
    if top == [] then {} else IdsOf(top[..|top| - 1]) + {top[|top| - 1].id}
  }

  ghost predicate HasId(top: seq<Entity>, id: string) {
    exists k :: 0 <= k < |top| && top[k].id == id
  }

  lemma {:induction false} IdsOfMember(top: seq<Entity>, id: string)
    ensures id in IdsOf(top) <==> HasId(top, id)
  {
    if top != [] {
      var n := |top| - 1;
      IdsOfMember(top[..n], id);
      if k :| 0 <= k < |top| && top[k].id == id {
        assert k < n ==> top[..n][k].id == id;
      }
    }
  }

  lemma {:induction false} IdsOfDistinct(top: seq<Entity>)
    requires forall i, j | 0 <= i < j < |top| :: top[i].id != top[j].id
    ensures |IdsOf(top)| == |top|
  {
    if top != [] {
      var n := |top| - 1;
      IdsOfDistinct(top[..n]);
      IdsOfMember(top[..n], top[n].id);
    }
  }

  // The query as it is ranked: the baseline of its candidates, united with its proposals.
  method RankQuery(candidates: seq<Candidate>, fuzzy: seq<SpanProposal>, gate: Gate, fold: string -> string)
    returns (top: seq<Entity>, total: nat, accepted: nat, ghost listed: seq<Entity>, ghost base: Entities,
             ghost merged: Entities)
    ensures AreValues(listed, base) && InBaselineOrder(listed) && RankedByKeys(top, fold)
    ensures AcceptedOf(fuzzy, gate) == [] && (forall k | 0 <= k < |candidates| :: candidates[k].channel != "char_fuzzy")
      ==> top == if GLOBAL_CAP < |listed| then listed[..GLOBAL_CAP] else listed
    ensures AreBaseline(base, candidates, |candidates|) && AreUnion(merged, base, AcceptedOf(fuzzy, gate), gate)
    ensures IsTop(top, merged, GLOBAL_CAP, fold) && total == |merged| && accepted == |AcceptedOf(fuzzy, gate)|
    ensures |top| == if total < 32 then total else 32
    ensures gate.weight <= 1.0 && (forall p | p in AcceptedOf(fuzzy, gate) :: 0.0 <= p.found.score <= 1.0) ==>
      forall id | id in base && Exact(base[id]) ::
        id in merged && (merged[id] in top || (|top| == GLOBAL_CAP && forall i | 0 <= i < |top| :: top[i].id in base))
  {
    hide AreBaseline, AreUnion, IsTop, AreValues, Exact, InBaselineOrder, RankedByKeys, FromFactory;
    var baseline;
    baseline, base := FactoryBaseline(candidates);
    BaselineKeyed(base, candidates, |candidates|);
    FromListOfValues(baseline, base);
    top, total, accepted, merged := Union(baseline, fuzzy, gate, fold);
    listed := baseline;
    ghost var proposals := AcceptedOf(fuzzy, gate);
    if proposals == [] && forall k | 0 <= k < |candidates| :: candidates[k].channel != "char_fuzzy" {
      BaselineFromFactory(baseline, base, candidates);
      BaselineAloneKept(baseline, base, merged, gate, fold, top);
    }
    if gate.weight <= 1.0 && forall p | p in proposals :: 0.0 <= p.found.score <= 1.0 {
      forall id | id in base && Exact(base[id])
        ensures id in merged && (merged[id] in top || (|top| == GLOBAL_CAP && forall i | 0 <= i < |top| ::
          top[i].id in base))
      {
        CapKeepsExactFirst(candidates, base, merged, proposals, gate, fold, top, id);
      }
    }
  }
}
