// Scored surfaces: a shortlist by gram overlap, scored again by edit similarity and cut.
module SurfaceScores {
  import opened CaseIds
  import opened EditDistance
  import opened Sorting

  datatype Scored = Scored(score: real, surface: string, id: nat)

  predicate Better(x: Scored, y: Scored) {
    x.score > y.score
    || (x.score == y.score && (if x.surface == y.surface then x.id <= y.id else Le(x.surface, y.surface)))
  }

  lemma BetterIsTotalPreorder()
    ensures TotalPreorder(Better)
  {
    forall x, y ensures Better(x, y) || Better(y, x) { LeTotal(x.surface, y.surface); }
    forall x, y, z | Better(x, y) && Better(y, z) ensures Better(x, z) {
      if Le(x.surface, y.surface) && Le(y.surface, z.surface) {
        LeTransitive(x.surface, y.surface, z.surface);
        if x.surface == z.surface {
          LeAntisymmetric(x.surface, y.surface);
        }
      }
    }
  }

  lemma BetterHasNoTies(s: seq<Scored>)
    ensures NoTies(s, Better)
  {
    forall i, j | 0 <= i < |s| && 0 <= j < |s| && Better(s[i], s[j]) && Better(s[j], s[i]) ensures s[i] == s[j] {
      if s[i].surface != s[j].surface {
        LeAntisymmetric(s[i].surface, s[j].surface);
      }
    }
  }

  function Rescored(normalized: string, s: seq<Scored>): (r: seq<Scored>)
    ensures |r| == |s|
  {
    seq(|s|, k requires 0 <= k < |s| => Rescore(normalized, s[k]))
  }

  function Rescore(normalized: string, x: Scored): Scored {
    var edit := Similarity(normalized, x.surface);
    Scored(if edit > x.score then edit else x.score, x.surface, x.id)
  }

  // From the Dice-scored surfaces to the reported ones.
  function Reported(normalized: string, scored: seq<Scored>, cap: nat): seq<Scored> {
    Take(Sort(Rescored(normalized, Take(Sort(scored, Better), Max(256, cap * 4))), Better), cap)
  }

  // Sorts, rescores the best by edit similarity, sorts again.
  method Report(normalized: string, scored: seq<Scored>, proposalCap: nat) returns (matches: seq<Scored>)
    ensures matches == Reported(normalized, scored, proposalCap)
  {
    var best := Take(Sort(scored, Better), Max(256, proposalCap * 4));
    var rescored := RescoreAll(normalized, best);
    matches := Take(Sort(rescored, Better), proposalCap);
  }

  method RescoreAll(normalized: string, best: seq<Scored>) returns (rescored: seq<Scored>)
    ensures rescored == Rescored(normalized, best)
  {
    rescored := [];
    for k := 0 to |best|
      invariant |rescored| == k && forall i | 0 <= i < k :: rescored[i] == Rescore(normalized, best[i])
    {
      var x := best[k];
      var edit, operations := DamerauSimilarity(normalized, x.surface);
      rescored := rescored + [Scored(if edit > x.score then edit else x.score, x.surface, x.id)];
    }
  }

  // The order in which the scored surfaces were collected does not matter.
  lemma ReportedForgetsOrder(normalized: string, a: seq<Scored>, b: seq<Scored>, cap: nat)
    requires multiset(a) == multiset(b)
    ensures Reported(normalized, a, cap) == Reported(normalized, b, cap)
  {
    BetterIsTotalPreorder();
    BetterHasNoTies(a);
    SortUnique(a, b, Better);
  }

  // ----- scores are probabilities

  ghost predicate AllInUnit(s: seq<Scored>) {
    forall x | x in s :: 0.0 <= x.score <= 1.0
  }

  lemma SortInUnit(s: seq<Scored>, n: nat)
    requires AllInUnit(s)
    ensures AllInUnit(Take(Sort(s, Better), n))
  {
    forall x | x in Take(Sort(s, Better), n) ensures 0.0 <= x.score <= 1.0 { TakeSortedMember(s, n, x); }
  }

  // Rescoring by edit similarity stays in range.
  lemma ReportedInUnit(normalized: string, scored: seq<Scored>, cap: nat)
    requires AllInUnit(scored)
    ensures AllInUnit(Reported(normalized, scored, cap))
  {
    SortInUnit(scored, Max(256, cap * 4));
    var best := Take(Sort(scored, Better), Max(256, cap * 4));
    var rescored := Rescored(normalized, best);
    forall x | x in rescored ensures 0.0 <= x.score <= 1.0 {
      var k :| 0 <= k < |best| && rescored[k] == x;
      assert best[k] in best;
      SimilarityIsScore(normalized, best[k].surface);
    }
    SortInUnit(rescored, cap);
  }

  lemma TakeSortedMember(s: seq<Scored>, n: nat, x: Scored)
    requires x in Take(Sort(s, Better), n)
    ensures x in s
  {
    assert x in Sort(s, Better);
    assert x in multiset(Sort(s, Better));
    assert x in multiset(s);
  }

  // A reported surface is one of the scored ones.
  lemma ReportedMember(normalized: string, scored: seq<Scored>, cap: nat, x: Scored)
    requires x in Reported(normalized, scored, cap)
    ensures exists y :: y in scored && y.id == x.id && y.surface == x.surface
  {
    var best := Take(Sort(scored, Better), Max(256, cap * 4));
    TakeSortedMember(Rescored(normalized, best), cap, x);
    var k :| 0 <= k < |best| && Rescored(normalized, best)[k] == x;
    assert best[k] in best;
    TakeSortedMember(scored, Max(256, cap * 4), best[k]);
  }

  lemma ReportedIds(normalized: string, scored: seq<Scored>, cap: nat, n: nat)
    requires forall x | x in scored :: x.id < n
    ensures forall k | 0 <= k < |Reported(normalized, scored, cap)| :: Reported(normalized, scored, cap)[k].id < n
  {
    hide Reported;
    var reported := Reported(normalized, scored, cap);
    forall k | 0 <= k < |reported| ensures reported[k].id < n {
      ReportedMember(normalized, scored, cap, reported[k]);
    }
  }

  // How a surface is scored in the end.
  ghost predicate RescoredFrom(normalized: string, x: Scored, y: Scored) {
    && x.id == y.id && x.surface == y.surface
    && x.score >= y.score && x.score >= Similarity(normalized, y.surface)
    && (x.score == y.score || x.score == Similarity(normalized, y.surface))
  }

  // Higher scores first, then surfaces in order, then ids.
  ghost predicate InScoreOrder(s: seq<Scored>) {
    forall i, j | 0 <= i < j < |s| ::
      && s[i].score >= s[j].score
      && (s[i].score == s[j].score ==> Le(s[i].surface, s[j].surface))
      && (s[i].score == s[j].score && s[i].surface == s[j].surface ==> s[i].id <= s[j].id)
  }

  lemma BetterMeans(x: Scored, y: Scored)
    requires Better(x, y)
    ensures x.score >= y.score && (x.score == y.score ==> Le(x.surface, y.surface))
    ensures x.score == y.score && x.surface == y.surface ==> x.id <= y.id
  {
    LeTotal(x.surface, x.surface);
  }

  lemma SortInScoreOrder(s: seq<Scored>, n: nat)
    ensures InScoreOrder(Take(Sort(s, Better), n))
  {
    hide Better, Sort;
    BetterIsTotalPreorder();
    SortOrdered(s, Better);
    var head := Take(Sort(s, Better), n);
    forall i, j | 0 <= i < j < |head|
      ensures head[i].score >= head[j].score
      ensures head[i].score == head[j].score ==> Le(head[i].surface, head[j].surface)
      ensures head[i].score == head[j].score && head[i].surface == head[j].surface ==> head[i].id <= head[j].id
    {
      BetterMeans(head[i], head[j]);
    }
  }

  lemma RescoredMeans(normalized: string, s: seq<Scored>, k: nat)
    requires k < |s|
    ensures RescoredFrom(normalized, Rescored(normalized, s)[k], s[k])
  {
  }

  // The reported surfaces come in score order, each with the better of its two scores. One that was scored is left out
  // only behind a full shortlist, or behind a full report.
  lemma ReportedAreBest(normalized: string, scored: seq<Scored>, cap: nat, y: Scored)
    requires y in scored
    ensures var r, short := Reported(normalized, scored, cap), if 256 < cap * 4 then cap * 4 else 256;
      && InScoreOrder(r) && |r| == (if |scored| < cap then |scored| else cap)
      && ((|scored| >= short && Count(scored, y) >= short)
          || (exists x :: x in r && RescoredFrom(normalized, x, y))
          || (|r| == cap && forall x | x in r :: x.score >= y.score && x.score >= Similarity(normalized, y.surface)))
  {
    hide Sort, Rescored, RescoredFrom;
    var short := Max(256, cap * 4);
    var best := Take(Sort(scored, Better), short);
    var rescored := Rescored(normalized, best);
    BetterIsTotalPreorder();
    SortInScoreOrder(rescored, cap);
    HeadIsTop(scored, Better, short, y);
    if y in best {
      var k :| 0 <= k < |best| && best[k] == y;
      RescoredMeans(normalized, best, k);
      assert rescored[k] in rescored;
      HeadIsTop(rescored, Better, cap, rescored[k]);
      BehindReport(normalized, rescored[k], y, Take(Sort(rescored, Better), cap));
    } else {
      ManyBetter(scored, best, short, y);
    }
  }

  lemma BehindReport(normalized: string, x: Scored, y: Scored, reported: seq<Scored>)
    requires RescoredFrom(normalized, x, y)
    ensures (forall z | z in reported :: Better(z, x)) ==>
      forall z | z in reported :: z.score >= y.score && z.score >= Similarity(normalized, y.surface)
  {
  }

  function AtLeast(score: real): Scored -> bool {
    (x: Scored) => x.score >= score
  }

  // How many scored surfaces have at least the score of y.
  ghost function Count(scored: seq<Scored>, y: Scored): nat { CountIf(scored, AtLeast(y.score)) }

  lemma ManyBetter(scored: seq<Scored>, best: seq<Scored>, short: nat, y: Scored)
    requires best == Take(Sort(scored, Better), short) && |best| == short
    requires forall x | x in best :: Better(x, y)
    ensures |scored| >= short && Count(scored, y) >= short
  {
    hide Sort, CountIf, Better;
    forall x | x in best ensures AtLeast(y.score)(x) {
      BetterMeans(x, y);
    }
    HeadCounts(scored, Sort(scored, Better), short, AtLeast(y.score));
  }

  ghost predicate ScoresFall(s: seq<Scored>) {
    forall i, j | 0 <= i < j < |s| :: s[i].score >= s[j].score
  }

  // The reported surfaces come by falling score.
  lemma ReportedFalls(normalized: string, scored: seq<Scored>, cap: nat)
    ensures ScoresFall(Reported(normalized, scored, cap))
  {
    hide Sort, Rescored;
    SortInScoreOrder(Rescored(normalized, Take(Sort(scored, Better), Max(256, cap * 4))), cap);
  }
}
