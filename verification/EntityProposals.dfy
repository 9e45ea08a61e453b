// The entities proposed for the reported surfaces: the best score of each, ranked and cut.
module EntityProposals {
  import opened CaseIds
  import opened Sorting
  import opened SurfaceScores

  datatype Proposal = Proposal(entity: string, title: string, score: real, surface: string, sources: seq<string>)

  // The entities and sources of every surface, and the canonical title of every entity.
  datatype Entities = Entities(ids: seq<seq<string>>, sources: seq<seq<string>>, titles: map<string, string>) {
    ghost predicate Titled() {
      && |ids| == |sources|
      && forall k, i | 0 <= k < |ids| && 0 <= i < |ids[k]| :: ids[k][i] in titles
    }
  }

  // ----- nominations: every reported surface names its entities

  function Nomination(e: Entities, m: Scored, i: nat): Proposal
    requires e.Titled() && m.id < |e.ids| && i < |e.ids[m.id]|
  {
    var entity := e.ids[m.id][i];
    Proposal(entity, e.titles[entity], m.score, m.surface, e.sources[m.id])
  }

  // The first n entities of one surface.
  function NominatedBy(e: Entities, m: Scored, n: nat): seq<Proposal>
    requires e.Titled() && m.id < |e.ids| && n <= |e.ids[m.id]|
  {
    if n == 0 then [] else NominatedBy(e, m, n - 1) + [Nomination(e, m, n - 1)]
  }

  ghost predicate Indexed(e: Entities, matches: seq<Scored>) {
    forall k | 0 <= k < |matches| :: matches[k].id < |e.ids|
  }

  function Nominations(e: Entities, matches: seq<Scored>): seq<Proposal>
    requires e.Titled() && Indexed(e, matches)
  {
    if matches == [] then []
    else
      var n := |matches| - 1;
      Nominations(e, matches[..n]) + NominatedBy(e, matches[n], |e.ids[matches[n].id]|)
  }

  lemma {:induction false} NominatedMember(e: Entities, m: Scored, n: nat, x: Proposal)
    requires e.Titled() && m.id < |e.ids| && n <= |e.ids[m.id]|
    ensures x in NominatedBy(e, m, n) <==> exists i :: 0 <= i < n && x == Nomination(e, m, i)
  {
    if n > 0 { NominatedMember(e, m, n - 1, x); }
  }

  // The surface names the entity, and the proposal carries what the tables and the match say.
  ghost predicate NamedBy(e: Entities, m: Scored, x: Proposal)
    requires e.Titled() && m.id < |e.ids|
  {
    && x.entity in e.ids[m.id] && x.entity in e.titles && x.title == e.titles[x.entity]
    && x.score == m.score && x.surface == m.surface && x.sources == e.sources[m.id]
  }

  lemma NamedIff(e: Entities, m: Scored, x: Proposal)
    requires e.Titled() && m.id < |e.ids|
    ensures x in NominatedBy(e, m, |e.ids[m.id]|) <==> NamedBy(e, m, x)
  {
    NominatedMember(e, m, |e.ids[m.id]|, x);
    if NamedBy(e, m, x) {
      var i :| 0 <= i < |e.ids[m.id]| && e.ids[m.id][i] == x.entity;
      assert x == Nomination(e, m, i);
    }
  }

  // The nominations are what the reported surfaces name.
  lemma {:induction false} NominationsMean(e: Entities, matches: seq<Scored>, x: Proposal)
    requires e.Titled() && Indexed(e, matches)
    ensures x in Nominations(e, matches) <==> exists k :: 0 <= k < |matches| && NamedBy(e, matches[k], x)
  {
    hide NamedBy, NominatedBy;
    if matches != [] {
      var n := |matches| - 1;
      NominationsMean(e, matches[..n], x);
      NamedIff(e, matches[n], x);
      if k :| 0 <= k < |matches| && NamedBy(e, matches[k], x) {
        assert k < n ==> NamedBy(e, matches[..n][k], x);
      }
    }
  }

  ghost predicate AtLeast(s: seq<Proposal>, score: real) {
    forall k | 0 <= k < |s| :: s[k].score >= score
  }

  lemma {:induction false} NominatedScores(e: Entities, m: Scored, n: nat)
    requires e.Titled() && m.id < |e.ids| && n <= |e.ids[m.id]|
    ensures AtLeast(NominatedBy(e, m, n), m.score)
    ensures forall x | x in NominatedBy(e, m, n) :: x.entity in e.titles && x.title == e.titles[x.entity]
  {
    if n > 0 { NominatedScores(e, m, n - 1); }
  }

  lemma {:induction false} NominationScores(e: Entities, matches: seq<Scored>, score: real)
    requires e.Titled() && Indexed(e, matches)
    requires forall k | 0 <= k < |matches| :: matches[k].score >= score
    ensures AtLeast(Nominations(e, matches), score)
    ensures forall x | x in Nominations(e, matches) :: x.entity in e.titles && x.title == e.titles[x.entity]
  {
    if matches != [] {
      var n := |matches| - 1;
      NominationScores(e, matches[..n], score);
      NominatedScores(e, matches[n], |e.ids[matches[n].id]|);
    }
  }

  // ----- one proposal for each entity

  ghost predicate Names(s: seq<Proposal>, entity: string) { exists k | 0 <= k < |s| :: s[k].entity == entity }

  // The first nomination of each entity, in order.
  ghost function FirstNominations(s: seq<Proposal>): seq<Proposal> {
    if s == [] then []
    else
      var front, last := FirstNominations(s[..|s| - 1]), s[|s| - 1];
      if Names(front, last.entity) then front else front + [last]
  }

  // The place of the proposal of an entity; the length if there is none.
  function PlaceOf(s: seq<Proposal>, entity: string): (k: nat)
    ensures k <= |s| && (k < |s| ==> s[k].entity == entity)
    ensures k < |s| <==> Names(s, entity)
  {
    if s == [] then 0
    else
      var n := |s| - 1;
      var k := PlaceOf(s[..n], entity);
      assert s == s[..n] + [s[n]];
      if k < n then k else if s[n].entity == entity then n else |s|
  }

  // A proposal enters the dictionary if its entity is new there or its score is higher.
  function Accept(s: seq<Proposal>, x: Proposal): seq<Proposal> {
    var k := PlaceOf(s, x.entity);
    if k == |s| then s + [x] else if x.score > s[k].score then s[k := x] else s
  }

  lemma {:induction false} FirstIsNomination(s: seq<Proposal>, x: Proposal)
    requires x in FirstNominations(s)
    ensures x in s
  {
    var n := |s| - 1;
    assert s == s[..n] + [s[n]];
    if x in FirstNominations(s[..n]) { FirstIsNomination(s[..n], x); }
  }

  lemma FirstAtLeast(s: seq<Proposal>, score: real)
    requires AtLeast(s, score)
    ensures AtLeast(FirstNominations(s), score)
  {
    var first := FirstNominations(s);
    forall k | 0 <= k < |first| ensures first[k].score >= score { FirstIsNomination(s, first[k]); }
  }

  // While scores fall, the dictionary holds the first nominations.
  lemma AcceptIsFirst(s: seq<Proposal>, x: Proposal)
    requires AtLeast(s, x.score)
    ensures FirstNominations(s + [x]) == Accept(FirstNominations(s), x)
  {
    FirstAtLeast(s, x.score);
    assert (s + [x])[..|s|] == s;
  }

  lemma AcceptNominated(before: seq<Proposal>, e: Entities, m: Scored, i: nat)
    requires e.Titled() && m.id < |e.ids| && i < |e.ids[m.id]| && AtLeast(before, m.score)
    ensures FirstNominations(before + NominatedBy(e, m, i + 1))
         == Accept(FirstNominations(before + NominatedBy(e, m, i)), Nomination(e, m, i))
  {
    NominatedScores(e, m, i);
    AcceptIsFirst(before + NominatedBy(e, m, i), Nomination(e, m, i));
    Associate(before, NominatedBy(e, m, i), [Nomination(e, m, i)]);
  }

  // ----- the ranking

  predicate RanksBefore(x: Proposal, y: Proposal, fold: string -> string) {
    x.score > y.score
    || (x.score == y.score &&
        if fold(x.title) == fold(y.title) then Le(x.entity, y.entity) else Le(fold(x.title), fold(y.title)))
  }

  lemma RanksBeforeIsTotalPreorder(fold: string -> string)
    ensures TotalPreorder((x, y) => RanksBefore(x, y, fold))
  {
    var le := (x, y) => RanksBefore(x, y, fold);
    forall x, y ensures le(x, y) || le(y, x) {
      LeTotal(x.entity, y.entity);
      LeTotal(fold(x.title), fold(y.title));
    }
    forall x, y, z | le(x, y) && le(y, z) ensures le(x, z) { RanksBeforeChains(x, y, z, fold); }
  }

  lemma RanksBeforeChains(x: Proposal, y: Proposal, z: Proposal, fold: string -> string)
    requires RanksBefore(x, y, fold) && RanksBefore(y, z, fold)
    ensures RanksBefore(x, z, fold)
  {
    var a, b, c := fold(x.title), fold(y.title), fold(z.title);
    if Le(x.entity, y.entity) && Le(y.entity, z.entity) { LeTransitive(x.entity, y.entity, z.entity); }
    if Le(a, b) && Le(b, c) { LeTransitive(a, b, c); }
    if Le(a, b) && Le(b, a) { LeAntisymmetric(a, b); }
  }

  // The proposals for the reported surfaces.
  ghost function Proposals(e: Entities, fold: string -> string, matches: seq<Scored>, cap: nat): seq<Proposal>
    requires e.Titled() && Indexed(e, matches)
  {
    Take(Sort(FirstNominations(Nominations(e, matches)), (x, y) => RanksBefore(x, y, fold)), cap)
  }

  method Propose(e: Entities, fold: string -> string, matches: seq<Scored>, cap: nat) returns (ranked: seq<Proposal>)
    requires e.Titled() && Indexed(e, matches) && ScoresFall(matches)
    ensures ranked == Proposals(e, fold, matches, cap)
  {
    hide FirstNominations, Accept, NominatedBy;
    var entities := [];
    FirstOfNone();
    for k := 0 to |matches|
      invariant entities == FirstNominations(Nominations(e, matches[..k]))
    {
      var m := matches[k];
      ghost var before := Nominations(e, matches[..k]);
      NominationScores(e, matches[..k], m.score);
      NominatedNone(e, m, before);
      for i := 0 to |e.ids[m.id]|
        invariant entities == FirstNominations(before + NominatedBy(e, m, i))
      {
        AcceptNominated(before, e, m, i);
        entities := Accept(entities, Nomination(e, m, i));
      }
      NominationsNext(e, matches, k);
    }
    assert matches[..|matches|] == matches;
    ranked := Take(Sort(entities, (x, y) => RanksBefore(x, y, fold)), cap);
  }

  lemma FirstOfNone()
    ensures FirstNominations([]) == []
  {
  }

  lemma NominatedNone(e: Entities, m: Scored, before: seq<Proposal>)
    requires e.Titled() && m.id < |e.ids|
    ensures before + NominatedBy(e, m, 0) == before
  {
  }

  lemma NominationsNext(e: Entities, matches: seq<Scored>, k: nat)
    requires e.Titled() && Indexed(e, matches) && k < |matches|
    ensures Nominations(e, matches[..k + 1])
         == Nominations(e, matches[..k]) + NominatedBy(e, matches[k], |e.ids[matches[k].id]|)
  {
    assert matches[..k + 1][..k] == matches[..k];
  }

  // ----- what the ranking promises

  ghost predicate IsFirstOf(s: seq<Proposal>, x: Proposal) {
    exists k | 0 <= k < |s| :: s[k] == x && forall j | 0 <= j < k :: s[j].entity != x.entity
  }

  ghost predicate OncePerEntity(s: seq<Proposal>) {
    forall i, j | 0 <= i < |s| && 0 <= j < |s| && i != j :: s[i].entity != s[j].entity
  }

  lemma FirstOfExtended(s: seq<Proposal>, last: Proposal, x: Proposal)
    requires IsFirstOf(s, x) || (x == last && !Names(s, x.entity))
    ensures IsFirstOf(s + [last], x)
  {
    var more := s + [last];
    if k :| 0 <= k < |s| && s[k] == x && forall j | 0 <= j < k :: s[j].entity != x.entity {
      assert more[k] == x;
    } else {
      assert more[|s|] == x;
    }
  }

  lemma {:induction false} FirstNominationsNames(s: seq<Proposal>, entity: string)
    ensures Names(FirstNominations(s), entity) <==> Names(s, entity)
  {
    if s != [] {
      var n := |s| - 1;
      var front := FirstNominations(s[..n]);
      FirstNominationsNames(s[..n], entity);
      NamesStep(s[..n], s[n], entity);
      NamesStep(front, s[n], entity);
      assert s == s[..n] + [s[n]];
    }
  }

  lemma NamesStep(s: seq<Proposal>, x: Proposal, entity: string)
    ensures Names(s + [x], entity) <==> Names(s, entity) || x.entity == entity
  {
    var more := s + [x];
    assert more[|s|] == x;
    if k :| 0 <= k < |s| && s[k].entity == entity {
      assert more[k].entity == entity;
    }
  }

  // Each named entity has one proposal, its first nomination.
  lemma {:induction false} FirstNominationsAreFirst(s: seq<Proposal>)
    ensures OncePerEntity(FirstNominations(s))
    ensures forall x | x in FirstNominations(s) :: IsFirstOf(s, x)
  {
    if s != [] {
      var n := |s| - 1;
      FirstNominationsAreFirst(s[..n]);
      FirstNominationsNames(s[..n], s[n].entity);
      assert s == s[..n] + [s[n]];
      forall x | x in FirstNominations(s) ensures IsFirstOf(s, x) {
        FirstOfExtended(s[..n], s[n], x);
      }
    }
  }

  // One entity's nominations fall in score, and all carry its title.
  ghost predicate Falling(s: seq<Proposal>) {
    forall i, j | 0 <= i < j < |s| :: s[i].score >= s[j].score
  }

  lemma FallingConcat(a: seq<Proposal>, b: seq<Proposal>, score: real)
    requires Falling(a) && AtLeast(a, score)
    requires forall k | 0 <= k < |b| :: b[k].score == score
    ensures Falling(a + b)
  {
  }

  lemma {:induction false} NominatedAlike(e: Entities, m: Scored, n: nat)
    requires e.Titled() && m.id < |e.ids| && n <= |e.ids[m.id]|
    ensures forall k | 0 <= k < |NominatedBy(e, m, n)| :: NominatedBy(e, m, n)[k].score == m.score
  {
    if n > 0 { NominatedAlike(e, m, n - 1); }
  }

  lemma {:induction false} NominationsFall(e: Entities, matches: seq<Scored>)
    requires e.Titled() && Indexed(e, matches) && ScoresFall(matches)
    ensures Falling(Nominations(e, matches))
  {
    if matches != [] {
      var n := |matches| - 1;
      NominationsFall(e, matches[..n]);
      NominationScores(e, matches[..n], matches[n].score);
      NominatedAlike(e, matches[n], |e.ids[matches[n].id]|);
      FallingConcat(Nominations(e, matches[..n]), NominatedBy(e, matches[n], |e.ids[matches[n].id]|), matches[n].score);
    }
  }

  // The first nomination of an entity has its best score.
  lemma FirstIsBest(s: seq<Proposal>, x: Proposal, y: Proposal)
    requires Falling(s) && IsFirstOf(s, x) && y in s && y.entity == x.entity
    ensures y.score <= x.score
  {
    var k :| 0 <= k < |s| && s[k] == x && forall j | 0 <= j < k :: s[j].entity != x.entity;
    var l :| 0 <= l < |s| && s[l] == y;
  }

  // Higher scores first, then folded titles in order, then ids.
  ghost predicate InRankOrder(s: seq<Proposal>, fold: string -> string) {
    forall i, j | 0 <= i < j < |s| ::
      && s[i].score >= s[j].score
      && (s[i].score == s[j].score ==> Le(fold(s[i].title), fold(s[j].title)))
      && (s[i].score == s[j].score && fold(s[i].title) == fold(s[j].title) ==> Le(s[i].entity, s[j].entity))
  }

  lemma OrderedInRank(s: seq<Proposal>, fold: string -> string)
    requires Ordered(s, (x, y) => RanksBefore(x, y, fold))
    ensures InRankOrder(s, fold)
  {
    forall i, j | 0 <= i < j < |s| ensures RanksBefore(s[i], s[j], fold) {
    }
    forall i | 0 <= i < |s| ensures Le(fold(s[i].title), fold(s[i].title)) {
      LeTotal(fold(s[i].title), fold(s[i].title));
    }
  }

  // The proposals name each entity at most once, by the first and best of its nominations, in rank order; an entity
  // that was nominated and is not proposed ranks behind every proposal of a full list.
  lemma ProposalsAreBest(e: Entities, fold: string -> string, matches: seq<Scored>, cap: nat)
    requires e.Titled() && Indexed(e, matches) && ScoresFall(matches)
    ensures var ranked, all := Proposals(e, fold, matches, cap), Nominations(e, matches);
      && |ranked| <= cap && OncePerEntity(ranked)
      && Ordered(ranked, (x, y) => RanksBefore(x, y, fold)) && InRankOrder(ranked, fold)
      && (forall x | x in ranked :: IsFirstOf(all, x))
      && (forall x, y | x in ranked && y in all && x.entity == y.entity :: y.score <= x.score)
      && (forall y | y in all :: Names(ranked, y.entity)
           || (|ranked| == cap && forall x | x in ranked :: RanksBefore(x, y, fold)))
  {
    hide RanksBefore, FirstNominations, Nominations, IsFirstOf, InRankOrder;
    var all := Nominations(e, matches);
    var first := FirstNominations(all);
    var le := (x, y) => RanksBefore(x, y, fold);
    var sorted := Sort(first, le);
    RanksBeforeIsTotalPreorder(fold);
    SortOrdered(first, le);
    FirstNominationsAreFirst(all);
    NominationsFall(e, matches);
    SortedOnce(first, sorted);
    OrderedInRank(Take(sorted, cap), fold);
    forall x | x in sorted ensures IsFirstOf(all, x) { SortedMember(first, sorted, x); }
    forall x, y | x in sorted && y in all && x.entity == y.entity ensures y.score <= x.score {
      FirstIsBest(all, x, y);
    }
    forall y | y in all
      ensures Names(Take(sorted, cap), y.entity)
           || (|Take(sorted, cap)| == cap && forall x | x in Take(sorted, cap) :: RanksBefore(x, y, fold))
    {
      UnproposedRanksBehind(e, fold, matches, sorted, cap, y);
    }
  }

  lemma SortedOnce(first: seq<Proposal>, sorted: seq<Proposal>)
    requires multiset(sorted) == multiset(first) && OncePerEntity(first)
    ensures OncePerEntity(sorted)
  {
    forall i, j | 0 <= i < |sorted| && 0 <= j < |sorted| && i != j ensures sorted[i].entity != sorted[j].entity {
      PairsSurvive(first, sorted, (x: Proposal, y: Proposal) => x.entity != y.entity, i, j);
    }
  }

  lemma SortedMember(first: seq<Proposal>, sorted: seq<Proposal>, x: Proposal)
    requires multiset(sorted) == multiset(first)
    ensures x in sorted <==> x in first
  {
    assert x in sorted <==> x in multiset(sorted);
    assert x in first <==> x in multiset(first);
  }

  lemma UnproposedRanksBehind(e: Entities, fold: string -> string, matches: seq<Scored>, sorted: seq<Proposal>,
                              cap: nat, y: Proposal)
    requires e.Titled() && Indexed(e, matches) && ScoresFall(matches) && y in Nominations(e, matches)
    requires multiset(sorted) == multiset(FirstNominations(Nominations(e, matches)))
    requires Ordered(sorted, (x, y) => RanksBefore(x, y, fold))
    ensures Names(Take(sorted, cap), y.entity)
         || (|Take(sorted, cap)| == cap && forall x | x in Take(sorted, cap) :: RanksBefore(x, y, fold))
  {
    hide RanksBefore, FirstNominations, Nominations, IsFirstOf;
    var all := Nominations(e, matches);
    var first := FirstNominations(all);
    FirstNominationsNames(all, y.entity);
    var l :| 0 <= l < |all| && all[l] == y;
    assert Names(all, y.entity);
    var i :| 0 <= i < |first| && first[i].entity == y.entity;
    var best := first[i];
    SortedMember(first, sorted, best);
    var k :| 0 <= k < |sorted| && sorted[k] == best;
    if k < cap {
      assert Take(sorted, cap)[k] == best;
    } else {
      FirstNominationsAreFirst(all);
      NominationsFall(e, matches);
      FirstIsBest(all, best, y);
      SameTitle(e, matches, best, y);
      BestRanksBefore(best, y, fold);
      forall x | x in Take(sorted, cap) ensures RanksBefore(x, y, fold) {
        var j :| 0 <= j < cap && sorted[j] == x;
        RanksBeforeChains(sorted[j], sorted[k], y, fold);
      }
    }
  }

  lemma SameTitle(e: Entities, matches: seq<Scored>, x: Proposal, y: Proposal)
    requires e.Titled() && Indexed(e, matches) && ScoresFall(matches)
    requires IsFirstOf(Nominations(e, matches), x) && y in Nominations(e, matches) && x.entity == y.entity
    ensures x.title == y.title
  {
    if matches != [] {
      NominationScores(e, matches, matches[|matches| - 1].score);
      assert x in Nominations(e, matches);
    }
  }

  lemma BestRanksBefore(x: Proposal, y: Proposal, fold: string -> string)
    requires x.entity == y.entity && x.title == y.title && y.score <= x.score
    ensures RanksBefore(x, y, fold)
  {
    LeTotal(x.entity, y.entity);
  }

  lemma {:induction false} NominationsInUnit(e: Entities, matches: seq<Scored>)
    requires e.Titled() && Indexed(e, matches) && AllInUnit(matches)
    ensures forall x | x in Nominations(e, matches) :: 0.0 <= x.score <= 1.0
  {
    if matches != [] {
      var n := |matches| - 1;
      NominationsInUnit(e, matches[..n]);
      NominatedAlike(e, matches[n], |e.ids[matches[n].id]|);
      assert matches[n] in matches;
    }
  }

  // A proposal has the score of a reported surface.
  lemma ProposalsInUnit(e: Entities, fold: string -> string, matches: seq<Scored>, cap: nat)
    requires e.Titled() && Indexed(e, matches) && AllInUnit(matches)
    ensures forall x | x in Proposals(e, fold, matches, cap) :: 0.0 <= x.score <= 1.0
  {
    hide RanksBefore, FirstNominations, Nominations;
    NominationsInUnit(e, matches);
    var first := FirstNominations(Nominations(e, matches));
    var sorted := Sort(first, (x, y) => RanksBefore(x, y, fold));
    forall x | x in Proposals(e, fold, matches, cap) ensures 0.0 <= x.score <= 1.0 {
      assert x in sorted;
      SortedMember(first, sorted, x);
      FirstIsNomination(Nominations(e, matches), x);
    }
  }
}
