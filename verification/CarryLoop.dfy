// The serial evaluation loop: each case may be boosted by the document its parent
// turn answered with, so `predicted_top1` is carried from case to case.
module CarryLoop {
  import opened CaseIds
  import opened Conversations
  import opened Sorting
  import opened Wrappers

  datatype Stage = Lexical | Fusion | Reranker

  datatype Ranked = Ranked(doc: Doc, score: real)

  // What one `select` call yields: the reranked candidates, best first, and the evidence kept.
  datatype Trace = Trace(ranked: seq<Ranked>, selected: seq<Doc>)

  // The retrieval runtime, as functions of what the loop passes to it.
  datatype Selector = Selector(anchors: string -> set<Doc>,
                               trace: (string, Option<Doc>, Stage) -> Trace,
                               pageid: Doc -> string)

  datatype Gate = Always | Compat

  datatype Config = Config(boost: real, gate: Gate, allDispositions: bool)

  datatype Record = Record(caseId: Id, isAnswer: bool, margin: real, topScore: real, topPage: Option<string>,
                           topGold: bool, goldRanks: seq<nat>, lenient: bool, strict: bool)

  datatype Tally = Tally(n: nat, lenient: nat, strict: nat)

  datatype Run = Run(predicted: map<Id, Doc>, records: seq<Record>, tallies: seq<Tally>)

  // ----- one case

  function Lookup(predicted: map<Id, Doc>, id: Id): Option<Doc> {
    if id in predicted then Some(predicted[id]) else None
  }

  // The prediction of the first declared prior that has one.
  function FirstPredicted(priors: seq<Id>, predicted: map<Id, Doc>): Option<Doc> {
    if priors == [] then None
    else if priors[0] in predicted then Some(predicted[priors[0]])
    else FirstPredicted(priors[1..], predicted)
  }

  function Carry(cfg: Config, sel: Selector, c: Case, predicted: map<Id, Doc>): Option<Doc> {
    if cfg.boost <= 0.0 || c.priors == [] then None
    else
      var carried := FirstPredicted(c.priors, predicted);
      if carried.Some? && cfg.gate.Compat? && sel.anchors(c.question) != {}
         && carried.value !in sel.anchors(c.question) then None
      else carried
  }

  function Pages(sel: Selector, docs: seq<Doc>): set<string> {
    set d | d in docs :: sel.pageid(d)
  }

  predicate Lenient(gold: set<string>, pages: set<string>) { gold * pages != {} }

  predicate Strict(gold: set<string>, pages: set<string>) { gold != {} && gold <= pages }

  function RankedPages(sel: Selector, ranked: seq<Ranked>): seq<string> {
    Distinct(seq(|ranked|, k requires 0 <= k < |ranked| => sel.pageid(ranked[k].doc)))
  }

  // One-based ranks of the gold pages.
  function GoldRanks(pages: seq<string>, gold: set<string>): seq<nat> {
    if pages == [] then []
    else
      var n := |pages| - 1;
      GoldRanks(pages[..n], gold) + if pages[n] in gold then [n + 1] else []
  }

  function Top(trace: Trace): Option<Doc> {
    if trace.ranked == [] then None else Some(trace.ranked[0].doc)
  }

  function MakeRecord(sel: Selector, c: Case, trace: Trace): (r: Record)
    ensures r.caseId == c.id && r.isAnswer == c.isAnswer
  {
    var pages := RankedPages(sel, trace.ranked);
    var kept := Pages(sel, trace.selected);
    Record(c.id, c.isAnswer,
           if |trace.ranked| >= 2 then trace.ranked[0].score - trace.ranked[1].score else 0.0,
           if trace.ranked != [] then trace.ranked[0].score else 0.0,
           if pages != [] then Some(pages[0]) else None,
           pages != [] && pages[0] in c.gold,
           GoldRanks(pages, c.gold),
           c.isAnswer && Lenient(c.gold, kept),
           c.isAnswer && Strict(c.gold, kept))
  }

  // `RecallAccumulator.add`, the overall bucket.
  function AddTally(t: Tally, gold: set<string>, pages: set<string>): Tally {
    Tally(t.n + 1, t.lenient + if Lenient(gold, pages) then 1 else 0, t.strict + if Strict(gold, pages) then 1 else 0)
  }

  const STAGES := [Lexical, Fusion, Reranker]

  function AddTallies(sel: Selector, c: Case, carry: Option<Doc>, tallies: seq<Tally>): (r: seq<Tally>)
    requires |tallies| == |STAGES|
    ensures |r| == |STAGES|
  {
    seq(|STAGES|, s requires 0 <= s < |STAGES| =>
      if c.isAnswer then AddTally(tallies[s], c.gold, Pages(sel, sel.trace(c.question, carry, STAGES[s]).selected))
      else tallies[s])
  }

  // ----- the whole run, as a function of the order of the cases

  function Emits(cfg: Config, c: Case): bool { c.isAnswer || cfg.allDispositions }

  function Step(cfg: Config, sel: Selector, c: Case, carry: Option<Doc>, before: Run): (after: Run)
    requires |before.tallies| == |STAGES|
    ensures |after.tallies| == |STAGES|
  {
    var trace := sel.trace(c.question, carry, Reranker);
    Run(if Top(trace).Some? then before.predicted[c.id := Top(trace).value] else before.predicted,
        before.records + if Emits(cfg, c) then [MakeRecord(sel, c, trace)] else [],
        AddTallies(sel, c, carry, before.tallies))
  }

  function RunOf(cfg: Config, sel: Selector, order: seq<Case>): (r: Run)
    ensures |r.tallies| == |STAGES|
  {
    if order == [] then Run(map[], [], [Tally(0, 0, 0), Tally(0, 0, 0), Tally(0, 0, 0)])
    else
      var before := RunOf(cfg, sel, order[..|order| - 1]);
      var c := order[|order| - 1];
      Step(cfg, sel, c, Carry(cfg, sel, c, before.predicted), before)
  }

  // The loop of `main` over the ordered cases.
  method Evaluate(cfg: Config, sel: Selector, order: seq<Case>) returns (run: Run)
    ensures run == RunOf(cfg, sel, order)
  {
    run := Run(map[], [], [Tally(0, 0, 0), Tally(0, 0, 0), Tally(0, 0, 0)]);
    for n := 0 to |order|
      invariant run == RunOf(cfg, sel, order[..n])
    {
      var carry := FindCarry(cfg, sel, order[n], run.predicted);
      assert order[..n + 1][..n] == order[..n];
      run := EvaluateCase(cfg, sel, order[n], carry, run);
    }
    assert order[..|order|] == order;
  }

  // The inner loop over the stages: every stage is tallied, the reranker's answer is
  // what later turns carry and what is reported.
  method EvaluateCase(cfg: Config, sel: Selector, c: Case, carry: Option<Doc>, before: Run) returns (after: Run)
    requires |before.tallies| == |STAGES|
    ensures after == Step(cfg, sel, c, carry, before)
    ensures var ranked := sel.trace(c.question, carry, Reranker).ranked;
      after.predicted == if ranked == [] then before.predicted else before.predicted[c.id := ranked[0].doc]
    ensures after.records == before.records
      + if c.isAnswer || cfg.allDispositions then [MakeRecord(sel, c, sel.trace(c.question, carry, Reranker))] else []
    ensures |after.tallies| == |STAGES|
    ensures forall s | 0 <= s < |STAGES| ::
      CountsCase(sel, c, sel.trace(c.question, carry, STAGES[s]).selected, before.tallies[s], after.tallies[s])
  {
    StepCounts(cfg, sel, c, carry, before);
    var predicted, records, tallies := before.predicted, before.records, before.tallies;
    for s := 0 to |STAGES|
      invariant |tallies| == |STAGES|
      invariant forall t | 0 <= t < s :: tallies[t] == AddTallies(sel, c, carry, before.tallies)[t]
      invariant forall t | s <= t < |STAGES| :: tallies[t] == before.tallies[t]
      invariant s < |STAGES| ==> predicted == before.predicted && records == before.records
      invariant s == |STAGES| ==> predicted == Step(cfg, sel, c, carry, before).predicted
      invariant s == |STAGES| ==> records == Step(cfg, sel, c, carry, before).records
    {
      var trace := sel.trace(c.question, carry, STAGES[s]);
      if c.isAnswer {
        tallies := tallies[s := AddTally(tallies[s], c.gold, Pages(sel, trace.selected))];
      }
      if STAGES[s] == Reranker {
        if trace.ranked != [] {
          predicted := predicted[c.id := trace.ranked[0].doc];
        }
        if c.isAnswer || cfg.allDispositions {
          records := records + [MakeRecord(sel, c, trace)];
        }
      }
    }
    assert tallies == AddTallies(sel, c, carry, before.tallies);
    after := Run(predicted, records, tallies);
  }

  // An answer case is counted, as a hit when some gold page was kept, as a strict hit when all of them were.
  ghost predicate CountsCase(sel: Selector, c: Case, docs: seq<Doc>, before: Tally, after: Tally) {
    var lenient := c.isAnswer && exists d :: d in docs && sel.pageid(d) in c.gold;
    var strict :=
      c.isAnswer && c.gold != {} && forall g :: g in c.gold ==> exists d :: d in docs && sel.pageid(d) == g;
    && after.n == before.n + (if c.isAnswer then 1 else 0)
    && after.lenient == before.lenient + (if lenient then 1 else 0)
    && after.strict == before.strict + (if strict then 1 else 0)
  }

  lemma StepCounts(cfg: Config, sel: Selector, c: Case, carry: Option<Doc>, before: Run)
    requires |before.tallies| == |STAGES|
    ensures forall s | 0 <= s < |STAGES| ::
      CountsCase(sel, c, sel.trace(c.question, carry, STAGES[s]).selected, before.tallies[s],
                 Step(cfg, sel, c, carry, before).tallies[s])
  {
    hide Lenient, Strict, Pages;
    forall s | 0 <= s < |STAGES|
      ensures CountsCase(sel, c, sel.trace(c.question, carry, STAGES[s]).selected, before.tallies[s],
                         Step(cfg, sel, c, carry, before).tallies[s])
    {
      GoldKept(sel, c.gold, sel.trace(c.question, carry, STAGES[s]).selected);
    }
  }

  // The carry decision at the head of the loop body: the document of the first prior that has one, unless the gate
  // asks for an anchor of the question and the document is none of them.
  method FindCarry(cfg: Config, sel: Selector, c: Case, predicted: map<Id, Doc>) returns (carry: Option<Doc>)
    ensures carry == Carry(cfg, sel, c, predicted)
    ensures forall d :: carry == Some(d) <==>
      && cfg.boost > 0.0
      && (exists k: nat :: FirstIn(c.priors, predicted.Keys, k) && d == predicted[c.priors[k]])
      && (cfg.gate == Always || sel.anchors(c.question) == {} || d in sel.anchors(c.question))
  {
    CarryMeans(cfg, sel, c, predicted);
    carry := None;
    if cfg.boost > 0.0 && c.priors != [] {
      var k := 0;
      while k < |c.priors| && c.priors[k] !in predicted
        invariant 0 <= k <= |c.priors|
        invariant FirstPredicted(c.priors, predicted) == FirstPredicted(c.priors[k..], predicted)
      {
        k := k + 1;
      }
      if k < |c.priors| {
        carry := Some(predicted[c.priors[k]]);
      }
      if carry.Some? && cfg.gate == Compat {
        var anchors := sel.anchors(c.question);
        if anchors != {} && carry.value !in anchors {
          carry := None;
        }
      }
    }
  }

  // ----- what a record says

  lemma {:induction false} GoldRanksMean(pages: seq<string>, gold: set<string>)
    ensures forall n: nat :: n in GoldRanks(pages, gold) <==> 1 <= n <= |pages| && pages[n - 1] in gold
    ensures forall i, j | 0 <= i < j < |GoldRanks(pages, gold)| :: GoldRanks(pages, gold)[i] < GoldRanks(pages, gold)[j]
  {
    if pages != [] {
      var m := |pages| - 1;
      GoldRanksMean(pages[..m], gold);
      var front := GoldRanks(pages[..m], gold);
      assert forall i | 0 <= i < |front| :: front[i] in front && front[i] <= m;
      assert GoldRanks(pages, gold) == front + if pages[m] in gold then [m + 1] else [];
      assert m + 1 !in front;
    }
  }

  // The pages of the ranked documents.
  ghost function PagesInRank(sel: Selector, ranked: seq<Ranked>): (pages: seq<string>)
    ensures |pages| == |ranked| && forall k | 0 <= k < |ranked| :: pages[k] == sel.pageid(ranked[k].doc)
  {
    seq(|ranked|, k requires 0 <= k < |ranked| => sel.pageid(ranked[k].doc))
  }

  // Place k is the first of its page, the page is gold, and it is the n-th page of the ranking.
  ghost predicate IsGoldRank(pages: seq<string>, gold: set<string>, n: nat, k: nat) {
    k < |pages| && pages[k] in gold && pages[k] !in pages[..k] && n == |set page | page in pages[..k]| + 1
  }

  lemma GoldRankIff(sel: Selector, ranked: seq<Ranked>, gold: set<string>, n: nat)
    ensures var pages := PagesInRank(sel, ranked);
      n in GoldRanks(RankedPages(sel, ranked), gold) <==> exists k: nat :: IsGoldRank(pages, gold, n, k)
  {
    hide GoldRanks, Distinct;
    var pages := PagesInRank(sel, ranked);
    var different := Distinct(pages);
    assert RankedPages(sel, ranked) == different;
    GoldRanksMean(different, gold);
    if n in GoldRanks(different, gold) {
      var k := FirstOccurrence(pages, different[n - 1]);
      DistinctPlace(pages, k);
      assert IsGoldRank(pages, gold, n, k);
    }
    if k: nat :| IsGoldRank(pages, gold, n, k) {
      DistinctPlace(pages, k);
    }
  }

  // What the record of a case says, in terms of the reranker's trace.
  lemma RecordMeans(sel: Selector, c: Case, trace: Trace)
    ensures var r, ranked, pages := MakeRecord(sel, c, trace), trace.ranked, PagesInRank(sel, trace.ranked);
      && r.caseId == c.id && r.isAnswer == c.isAnswer
      && (r.lenient <==> c.isAnswer && exists d :: d in trace.selected && sel.pageid(d) in c.gold)
      && (r.strict <==>
          (c.isAnswer && c.gold != {} &&
           forall g :: g in c.gold ==> exists d :: d in trace.selected && sel.pageid(d) == g))
      && r.topPage == (if ranked == [] then None else Some(pages[0]))
      && (r.topGold <==> ranked != [] && pages[0] in c.gold)
      && (forall n: nat :: n in r.goldRanks <==> exists k: nat :: IsGoldRank(pages, c.gold, n, k))
      && (forall i, j | 0 <= i < j < |r.goldRanks| :: r.goldRanks[i] < r.goldRanks[j])
      && r.topScore == (if ranked == [] then 0.0 else ranked[0].score)
      && r.margin == (if |ranked| < 2 then 0.0 else ranked[0].score - ranked[1].score)
  {
    hide GoldRanks, Distinct;
    var pages, kept := PagesInRank(sel, trace.ranked), Pages(sel, trace.selected);
    GoldRanksMean(RankedPages(sel, trace.ranked), c.gold);
    forall n: nat
      ensures n in GoldRanks(RankedPages(sel, trace.ranked), c.gold) <==>
              exists k: nat :: IsGoldRank(pages, c.gold, n, k)
    {
      GoldRankIff(sel, trace.ranked, c.gold, n);
    }
    assert RankedPages(sel, trace.ranked) == Distinct(pages);
    if pages != [] {
      assert (set page | page in pages[..0]) == {};
      DistinctPlace(pages, 0);
    } else {
      DistinctCount(pages);
      assert (set page | page in pages) == {};
    }
    GoldKept(sel, c.gold, trace.selected);
  }

  lemma GoldKept(sel: Selector, gold: set<string>, docs: seq<Doc>)
    ensures Lenient(gold, Pages(sel, docs)) <==> exists d :: d in docs && sel.pageid(d) in gold
    ensures Strict(gold, Pages(sel, docs)) <==>
      gold != {} && forall g :: g in gold ==> exists d :: d in docs && sel.pageid(d) == g
  {
    if d :| d in docs && sel.pageid(d) in gold {
      assert sel.pageid(d) in gold * Pages(sel, docs);
    }
    if g :| g in gold * Pages(sel, docs) {
      assert exists d :: d in docs && sel.pageid(d) == g;
    }
  }

  // ----- what the carry decision means

  // Place k holds the first of the ids that is known.
  ghost predicate FirstIn(ids: seq<Id>, known: set<Id>, k: nat) {
    k < |ids| && ids[k] in known && forall j | 0 <= j < k :: ids[j] !in known
  }

  lemma {:induction false} FirstPredictedMeans(priors: seq<Id>, predicted: map<Id, Doc>, k: nat)
    requires FirstIn(priors, predicted.Keys, k)
    ensures FirstPredicted(priors, predicted) == Some(predicted[priors[k]])
  {
    if k > 0 {
      assert FirstIn(priors[1..], predicted.Keys, k - 1);
      FirstPredictedMeans(priors[1..], predicted, k - 1);
    }
  }

  lemma {:induction false} FirstPredictedPlace(priors: seq<Id>, predicted: map<Id, Doc>) returns (k: nat)
    requires FirstPredicted(priors, predicted).Some?
    ensures FirstIn(priors, predicted.Keys, k)
  {
    if priors[0] in predicted {
      k := 0;
    } else {
      var j := FirstPredictedPlace(priors[1..], predicted);
      k := j + 1;
    }
  }

  lemma CarryMeans(cfg: Config, sel: Selector, c: Case, predicted: map<Id, Doc>)
    ensures forall d :: Carry(cfg, sel, c, predicted) == Some(d) <==>
      && cfg.boost > 0.0
      && (exists k: nat :: FirstIn(c.priors, predicted.Keys, k) && d == predicted[c.priors[k]])
      && (cfg.gate == Always || sel.anchors(c.question) == {} || d in sel.anchors(c.question))
  {
    if FirstPredicted(c.priors, predicted).Some? {
      var k := FirstPredictedPlace(c.priors, predicted);
      FirstPredictedMeans(c.priors, predicted, k);
      assert forall j: nat | FirstIn(c.priors, predicted.Keys, j) :: j == k;
    } else {
      forall k: nat ensures !FirstIn(c.priors, predicted.Keys, k) {
        if FirstIn(c.priors, predicted.Keys, k) { FirstPredictedMeans(c.priors, predicted, k); }
      }
    }
  }

  // ----- locality: what a case reads from the cases before it

  // The case at place `k` and the document it is boosted with in this order.
  function CarryAt(cfg: Config, sel: Selector, order: seq<Case>, k: nat): Option<Doc>
    requires k < |order|
  {
    Carry(cfg, sel, order[k], RunOf(cfg, sel, order[..k]).predicted)
  }

  function TraceAt(cfg: Config, sel: Selector, order: seq<Case>, k: nat): Trace
    requires k < |order|
  {
    sel.trace(order[k].question, CarryAt(cfg, sel, order, k), Reranker)
  }

  // A case leaves its own top document, and nobody overwrites it.
  lemma {:induction false} PredictedOf(cfg: Config, sel: Selector, order: seq<Case>, j: nat, k: nat)
    requires DistinctIds(order) && j < k <= |order|
    ensures Lookup(RunOf(cfg, sel, order[..k]).predicted, order[j].id) == Top(TraceAt(cfg, sel, order, j))
    decreases k
  {
    assert order[..k][..k - 1] == order[..k - 1];
    if j < k - 1 {
      PredictedOf(cfg, sel, order, j, k - 1);
    } else {
      NotYetPredicted(cfg, sel, order[..j], order[j].id);
    }
  }

  lemma {:induction false} NotYetPredicted(cfg: Config, sel: Selector, order: seq<Case>, id: Id)
    requires forall k | 0 <= k < |order| :: order[k].id != id
    ensures id !in RunOf(cfg, sel, order).predicted
  {
    if order != [] {
      NotYetPredicted(cfg, sel, order[..|order| - 1], id);
    }
  }

  lemma {:induction false} CarryReadsPriorsOnly(priors: seq<Id>, a: map<Id, Doc>, b: map<Id, Doc>)
    requires forall p | p in priors :: Lookup(a, p) == Lookup(b, p)
    ensures FirstPredicted(priors, a) == FirstPredicted(priors, b)
  {
    if priors != [] {
      assert Lookup(a, priors[0]) == Lookup(b, priors[0]);
      CarryReadsPriorsOnly(priors[1..], a, b);
    }
  }

  // The heart of sharding: a case sees the same carried document in any order of any
  // parent-closed part of the benchmark, as long as parents come first.
  lemma {:induction false} CarryIsLocal(cfg: Config, sel: Selector, part: map<Id, Case>, whole: map<Id, Case>,
                                        partOrder: seq<Case>, wholeOrder: seq<Case>, k: nat, i: nat)
    requires ParentsFirst(part, partOrder) && ParentsFirst(whole, wholeOrder) && ClosedWithin(part, whole)
    requires k < |partOrder| && i < |wholeOrder| && partOrder[k] == wholeOrder[i]
    ensures CarryAt(cfg, sel, partOrder, k) == CarryAt(cfg, sel, wholeOrder, i)
    decreases k
  {
    var c := partOrder[k];
    assert BehindPriors(part, partOrder, k) && BehindPriors(whole, wholeOrder, i);
    assert KeepsParents(part, whole, c.id);
    var near, far := RunOf(cfg, sel, partOrder[..k]).predicted, RunOf(cfg, sel, wholeOrder[..i]).predicted;
    forall p | p in c.priors ensures Lookup(near, p) == Lookup(far, p) {
      if p in part {
        assert KeepsParents(part, whole, p);
        var j :| 0 <= j < k && partOrder[..k][j] == part[p];
        var h :| 0 <= h < i && wholeOrder[..i][h] == whole[p];
        assert partOrder[j] == part[p] && wholeOrder[h] == part[p];
        PredictedOf(cfg, sel, partOrder, j, k);
        PredictedOf(cfg, sel, wholeOrder, h, i);
        CarryIsLocal(cfg, sel, part, whole, partOrder, wholeOrder, j, h);
      } else {
        OutsideNeverPredicted(cfg, sel, part, partOrder, k, p);
        OutsideNeverPredicted(cfg, sel, whole, wholeOrder, i, p);
      }
    }
    CarryReadsPriorsOnly(c.priors, near, far);
  }

  // The case `id` came before place k, and its own top document was d.
  ghost predicate Answered(cfg: Config, sel: Selector, order: seq<Case>, k: nat, id: Id, d: Doc) {
    exists j :: 0 <= j < k && j < |order| && order[j].id == id &&
      var ranked := TraceAt(cfg, sel, order, j).ranked; ranked != [] && ranked[0].doc == d
  }

  // The ids that were answered before place k.
  ghost function AnsweredIds(cfg: Config, sel: Selector, order: seq<Case>, k: nat): set<Id> {
    set j | 0 <= j < k && j < |order| && TraceAt(cfg, sel, order, j).ranked != [] :: order[j].id
  }

  lemma PredictedIsAnswered(cfg: Config, sel: Selector, order: seq<Case>, k: nat)
    requires DistinctIds(order) && k <= |order|
    ensures var predicted := RunOf(cfg, sel, order[..k]).predicted;
      && predicted.Keys == AnsweredIds(cfg, sel, order, k)
      && forall id, d | id in predicted :: predicted[id] == d <==> Answered(cfg, sel, order, k, id, d)
  {
    hide RunOf, TraceAt;
    var predicted := RunOf(cfg, sel, order[..k]).predicted;
    forall j | 0 <= j < k
      ensures Lookup(predicted, order[j].id) == Top(TraceAt(cfg, sel, order, j))
    {
      PredictedOf(cfg, sel, order, j, k);
    }
    forall id | id in predicted ensures exists j :: 0 <= j < k && order[j].id == id {
      if forall j | 0 <= j < |order[..k]| :: order[..k][j].id != id {
        NotYetPredicted(cfg, sel, order[..k], id);
      } else {
        var j :| 0 <= j < k && order[..k][j].id == id;
        assert order[j].id == id;
      }
    }
  }

  // What a case is boosted with over a whole run: the top document of its first prior that was answered before it,
  // under the gate.
  lemma CarryOfRun(cfg: Config, sel: Selector, order: seq<Case>, k: nat)
    requires DistinctIds(order) && k < |order|
    ensures forall d :: CarryAt(cfg, sel, order, k) == Some(d) <==>
      && cfg.boost > 0.0
      && (exists m: nat :: FirstIn(order[k].priors, AnsweredIds(cfg, sel, order, k), m)
           && Answered(cfg, sel, order, k, order[k].priors[m], d))
      && (cfg.gate == Always || sel.anchors(order[k].question) == {} || d in sel.anchors(order[k].question))
    ensures TraceAt(cfg, sel, order, k) == sel.trace(order[k].question, CarryAt(cfg, sel, order, k), Reranker)
  {
    hide Carry, RunOf, Answered, AnsweredIds;
    var predicted := RunOf(cfg, sel, order[..k]).predicted;
    CarryMeans(cfg, sel, order[k], predicted);
    PredictedIsAnswered(cfg, sel, order, k);
  }

  lemma OutsideNeverPredicted(cfg: Config, sel: Selector, cases: map<Id, Case>, order: seq<Case>, k: nat, p: Id)
    requires ParentsFirst(cases, order) && p !in cases && k <= |order|
    ensures p !in RunOf(cfg, sel, order[..k]).predicted
  {
    forall j: nat | j < k ensures order[..k][j].id != p {
      assert BehindPriors(cases, order, j);
    }
    NotYetPredicted(cfg, sel, order[..k], p);
  }
}
