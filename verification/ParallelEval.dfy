// Parallel evaluation over conversation shards, proved equal to the serial run.
module ParallelEval {
  import opened CarryLoop
  import opened CaseIds
  import opened Conversations
  import opened ConversationShards
  import opened Sorting
  import opened UnionFind
  import opened Wrappers
  import ConversationOrder

  // The cases a run scores: ANSWER cases unless every disposition was asked for.
  function Scored(cfg: Config, cases: seq<Case>): (r: seq<Case>)
    ensures forall c :: c in r <==> c in cases && (c.isAnswer || cfg.allDispositions)
  {
    if cases == [] then []
    else
      var n := |cases| - 1;
      assert cases == cases[..n] + [cases[n]];
      Scored(cfg, cases[..n]) + if Emits(cfg, cases[n]) then [cases[n]] else []
  }

  // The cases one process runs: all the scored ones, or those of its `--case-ids-file`.
  function Chosen(cfg: Config, cases: seq<Case>, idsFile: Option<seq<Id>>): seq<Case> {
    match idsFile
    case None => Scored(cfg, cases)
    case Some(ids) => Pick(Scored(cfg, cases), Members(ids))
  }

  // One process of v050_selector_eval.py; `order` is the order it worked in.
  method EvaluateSerially(cfg: Config, sel: Selector, cases: seq<Case>, idsFile: Option<seq<Id>>)
    returns (r: Result<Run>, ghost order: seq<Case>)
    ensures r.Raised? <==> Cyclic(ById(Chosen(cfg, cases, idsFile)))
    ensures r.Ok? ==> ParentsFirst(ById(Chosen(cfg, cases, idsFile)), order) && r.value == RunOf(cfg, sel, order)
  {
    var ordered := ConversationOrder.Order(Chosen(cfg, cases, idsFile));
    order := [];
    if ordered.Raised? {
      return Raised, order;
    }
    order := ordered.value;
    var run := Evaluate(cfg, sel, ordered.value);
    return Ok(run), order;
  }

  predicate ByCaseId(a: Record, b: Record) { Le(a.caseId, b.caseId) }

  datatype Report = Report(records: seq<Record>, answers: nat, strictRecall: real, lenientRecall: real)

  // Hits per answer; without answers the divisor is one.
  function Recall(hits: nat, answers: nat): real {
    hits as real / (if answers > 1 then answers else 1) as real
  }

  // ----- a shard is a parent-closed part of the benchmark

  lemma ShardIsClosed(cfg: Config, cases: seq<Case>, shards: seq<seq<Id>>, q: nat)
    requires AreShards(cases, shards) && q < |shards|
    ensures ClosedWithin(ById(Pick(Scored(cfg, cases), Members(shards[q]))), ById(Scored(cfg, cases)))
  {
    PickIsClosed(cases, Scored(cfg, cases), shards, q);
  }

  // ----- cycles: one process meets one exactly when the serial run would

  lemma CycleInPartIsCycle(part: map<Id, Case>, whole: map<Id, Case>)
    requires ClosedWithin(part, whole) && Cyclic(part)
    ensures Cyclic(whole)
  {
    var p :| IsCycle(part, p);
    forall i {:trigger p[i]} | 0 <= i < |p| - 1 ensures p[i] in whole && p[i + 1] in whole[p[i]].priors {
      assert KeepsParents(part, whole, p[i]);
    }
    assert IsCycle(whole, p);
  }

  lemma {:induction false} WalkStaysInPart(part: map<Id, Case>, whole: map<Id, Case>, p: seq<Id>, i: nat)
    requires ClosedWithin(part, whole) && IsWalk(whole, p) && p[0] in part
    requires i < |p| && p[|p| - 1] in whole
    ensures p[i] in part
  {
    if i > 0 {
      WalkStaysInPart(part, whole, p, i - 1);
      assert KeepsParents(part, whole, p[i - 1]);
      assert p[i - 1] in whole && p[i - 1 + 1] in whole[p[i - 1]].priors;
      assert i < |p| - 1 ==> p[i] in whole;
    }
  }

  lemma CycleStaysInPart(part: map<Id, Case>, whole: map<Id, Case>, p: seq<Id>)
    requires ClosedWithin(part, whole) && IsCycle(whole, p) && p[0] in part
    ensures Cyclic(part)
  {
    assert p[0] in whole;
    forall i {:trigger p[i]} | 0 <= i < |p| - 1 ensures p[i] in part && p[i + 1] in part[p[i]].priors {
      WalkStaysInPart(part, whole, p, i);
      assert KeepsParents(part, whole, p[i]);
      assert p[i] in whole && p[i + 1] in whole[p[i]].priors;
    }
    assert IsCycle(part, p);
  }

  // ----- records

  // What the serial run in `order` reports about a case.
  ghost function RecordIn(cfg: Config, sel: Selector, order: seq<Case>, c: Case): Record {
    MakeRecord(sel, c, if c in order then TraceAt(cfg, sel, order, Position(order, c)) else Trace([], []))
  }

  ghost function Reporter(cfg: Config, sel: Selector, order: seq<Case>): Case -> Record {
    c => RecordIn(cfg, sel, order, c)
  }

  lemma RecordsStep(cfg: Config, sel: Selector, order: seq<Case>, k: nat)
    requires k < |order| && Emits(cfg, order[k])
    ensures RunOf(cfg, sel, order[..k + 1]).records
         == RunOf(cfg, sel, order[..k]).records + [MakeRecord(sel, order[k], TraceAt(cfg, sel, order, k))]
  {
    assert order[..k + 1][..k] == order[..k];
  }

  lemma {:induction false} RecordsMap(cfg: Config, sel: Selector, order: seq<Case>, report: Case -> Record, k: nat)
    requires k <= |order|
    requires forall i | 0 <= i < |order| :: Emits(cfg, order[i])
    requires forall i | 0 <= i < |order| :: MakeRecord(sel, order[i], TraceAt(cfg, sel, order, i)) == report(order[i])
    ensures RunOf(cfg, sel, order[..k]).records == Map(report, order[..k])
  {
    if k > 0 {
      RecordsMap(cfg, sel, order, report, k - 1);
      RecordsStep(cfg, sel, order, k - 1);
      MapStep(report, order, k - 1);
    }
  }

  // A process over a parent-closed part reports what the serial run reports.
  lemma PartReports(cfg: Config, sel: Selector, part: map<Id, Case>, whole: map<Id, Case>,
                    partOrder: seq<Case>, wholeOrder: seq<Case>)
    requires ParentsFirst(part, partOrder) && ParentsFirst(whole, wholeOrder) && ClosedWithin(part, whole)
    requires forall i | 0 <= i < |partOrder| :: Emits(cfg, partOrder[i])
    ensures RunOf(cfg, sel, partOrder).records == Map(Reporter(cfg, sel, wholeOrder), partOrder)
  {
    var report := Reporter(cfg, sel, wholeOrder);
    forall i | 0 <= i < |partOrder|
      ensures MakeRecord(sel, partOrder[i], TraceAt(cfg, sel, partOrder, i)) == report(partOrder[i])
    {
      SameRecord(cfg, sel, part, whole, partOrder, wholeOrder, i);
    }
    RecordsMap(cfg, sel, partOrder, report, |partOrder|);
    assert partOrder[..|partOrder|] == partOrder;
  }

  lemma SameRecord(cfg: Config, sel: Selector, part: map<Id, Case>, whole: map<Id, Case>,
                   partOrder: seq<Case>, wholeOrder: seq<Case>, k: nat)
    requires ParentsFirst(part, partOrder) && ParentsFirst(whole, wholeOrder) && ClosedWithin(part, whole)
    requires k < |partOrder|
    ensures MakeRecord(sel, partOrder[k], TraceAt(cfg, sel, partOrder, k))
         == Reporter(cfg, sel, wholeOrder)(partOrder[k])
  {
    var c := partOrder[k];
    assert BehindPriors(part, partOrder, k) && KeepsParents(part, whole, c.id) && Listed(whole, wholeOrder, c.id);
    CarryIsLocal(cfg, sel, part, whole, partOrder, wholeOrder, k, Position(wholeOrder, c));
  }

  lemma OrderedIsKnown(cases: map<Id, Case>, order: seq<Case>, c: Case)
    requires ParentsFirst(cases, order) && c in order
    ensures c.id in cases && cases[c.id] == c
  {
    var k: nat :| k < |order| && order[k] == c;
    assert BehindPriors(cases, order, k);
  }

  // The orders the shard processes worked in, end to end, rearrange the serial order.
  lemma ShardOrdersRearrange(whole: map<Id, Case>, parts: seq<map<Id, Case>>, orders: seq<seq<Case>>, order: seq<Case>)
    requires |parts| == |orders| && ParentsFirst(whole, order)
    requires forall q | 0 <= q < |parts| :: ParentsFirst(parts[q], orders[q]) && ClosedWithin(parts[q], whole)
    requires forall id | id in whole :: exists q :: 0 <= q < |parts| && id in parts[q]
    requires forall q, r, id | 0 <= q < |parts| && 0 <= r < |parts| && id in parts[q] && id in parts[r] :: q == r
    ensures multiset(Flatten(orders)) == multiset(order)
  {
    forall q, r, c | 0 <= q < |orders| && 0 <= r < |orders| && c in orders[q] && c in orders[r] ensures q == r {
      OrderedIsKnown(parts[q], orders[q], c);
      OrderedIsKnown(parts[r], orders[r], c);
    }
    DistinctPartsFlatten(orders);
    forall c ensures c in Flatten(orders) <==> c in order {
      FlattenMember(orders, c);
      if c in order {
        OrderedIsKnown(whole, order, c);
        var q :| 0 <= q < |parts| && c.id in parts[q];
        assert KeepsParents(parts[q], whole, c.id) && Listed(parts[q], orders[q], c.id);
      }
      if c in Flatten(orders) {
        var q :| 0 <= q < |orders| && c in orders[q];
        OrderedIsKnown(parts[q], orders[q], c);
        assert KeepsParents(parts[q], whole, c.id) && Listed(whole, order, c.id);
      }
    }
    DistinctSameMembers(Flatten(orders), order);
  }

  lemma {:induction false} DistinctPartsFlatten<T>(parts: seq<seq<T>>)
    requires forall q | 0 <= q < |parts| :: forall i, j | 0 <= i < j < |parts[q]| :: parts[q][i] != parts[q][j]
    requires forall q, r, x | 0 <= q < |parts| && 0 <= r < |parts| && x in parts[q] && x in parts[r] :: q == r
    ensures forall i, j | 0 <= i < j < |Flatten(parts)| :: Flatten(parts)[i] != Flatten(parts)[j]
  {
    if parts != [] {
      var n := |parts| - 1;
      DistinctPartsFlatten(parts[..n]);
      var front := Flatten(parts[..n]);
      forall x | x in front ensures x !in parts[n] {
        FlattenMember(parts[..n], x);
      }
      var all := front + parts[n];
      forall i, j | 0 <= i < j < |all| ensures all[i] != all[j] {
        if i < |front| <= j {
          assert all[i] in front && all[j] in parts[n];
        }
      }
    }
  }

  lemma {:induction false} FlattenMap<T, U>(f: T -> U, parts: seq<seq<T>>, images: seq<seq<U>>)
    requires |images| == |parts|
    requires forall q | 0 <= q < |parts| :: images[q] == Map(f, parts[q])
    ensures Flatten(images) == Map(f, Flatten(parts))
  {
    if parts != [] {
      var n := |parts| - 1;
      FlattenMap(f, parts[..n], images[..n]);
    }
  }

  lemma RecordTiesAreEqual(cfg: Config, sel: Selector, order: seq<Case>)
    requires DistinctIds(order)
    ensures NoTies(Map(Reporter(cfg, sel, order), order), ByCaseId)
  {
    var records := Map(Reporter(cfg, sel, order), order);
    forall i, j | 0 <= i < |records| && 0 <= j < |records| && ByCaseId(records[i], records[j]) &&
      ByCaseId(records[j], records[i])
      ensures records[i] == records[j]
    {
      LeAntisymmetric(order[i].id, order[j].id);
      assert i == j;
    }
  }

  lemma ByCaseIdIsTotalPreorder()
    ensures TotalPreorder(ByCaseId)
  {
    LeIsTotalPreorder();
    forall x, y ensures ByCaseId(x, y) || ByCaseId(y, x) {}
    forall x, y, z | ByCaseId(x, y) && ByCaseId(y, z) ensures ByCaseId(x, z) {
      LeTransitive(x.caseId, y.caseId, z.caseId);
    }
  }

  // ----- the main result

  ghost function ShardCases(cfg: Config, cases: seq<Case>, shards: seq<seq<Id>>, q: nat): map<Id, Case>
    requires q < |shards|
  {
    ById(Chosen(cfg, cases, Some(shards[q])))
  }

  ghost predicate Reported(cfg: Config, sel: Selector, part: map<Id, Case>, order: seq<Case>, report: seq<Record>) {
    ParentsFirst(part, order) && report == RunOf(cfg, sel, order).records
  }

  // Every shard process finished: `orders` are the orders they worked in, `reports`
  // what they reported.
  ghost predicate ShardsReported(cfg: Config, sel: Selector, cases: seq<Case>, shards: seq<seq<Id>>,
                                 orders: seq<seq<Case>>, reports: seq<seq<Record>>) {
    && |orders| == |reports| <= |shards|
    && forall q: nat {:trigger ReportedAt(cfg, sel, cases, shards, orders, reports, q)} ::
         q < |orders| ==> ReportedAt(cfg, sel, cases, shards, orders, reports, q)
  }

  ghost predicate ReportedAt(cfg: Config, sel: Selector, cases: seq<Case>, shards: seq<seq<Id>>,
                             orders: seq<seq<Case>>, reports: seq<seq<Record>>, q: nat)
    requires |orders| == |reports| <= |shards| && q < |orders|
  {
    Reported(cfg, sel, ShardCases(cfg, cases, shards, q), orders[q], reports[q])
  }

  lemma OrderedAreScored(cfg: Config, cases: seq<Case>, chosen: seq<Case>, order: seq<Case>)
    requires forall c | c in chosen :: Emits(cfg, c)
    requires ParentsFirst(ById(chosen), order)
    ensures forall i | 0 <= i < |order| :: Emits(cfg, order[i])
  {
    forall i | 0 <= i < |order| ensures Emits(cfg, order[i]) {
      OrderedIsKnown(ById(chosen), order, order[i]);
      ByIdMember(chosen, order[i].id);
    }
  }

  lemma WholeIsClosed(cases: seq<Case>)
    ensures ClosedWithin(ById(cases), ById(cases))
  {
    forall id | id in ById(cases) ensures KeepsParents(ById(cases), ById(cases), id) {
      ByIdMember(cases, id);
    }
  }

  lemma SerialReports(cfg: Config, sel: Selector, cases: seq<Case>, order: seq<Case>)
    requires ParentsFirst(ById(Scored(cfg, cases)), order)
    ensures RunOf(cfg, sel, order).records == Map(Reporter(cfg, sel, order), order)
  {
    var whole := ById(Scored(cfg, cases));
    WholeIsClosed(Scored(cfg, cases));
    OrderedAreScored(cfg, cases, Scored(cfg, cases), order);
    PartReports(cfg, sel, whole, whole, order, order);
  }

  lemma ShardReports(cfg: Config, sel: Selector, cases: seq<Case>, shards: seq<seq<Id>>,
                     orders: seq<seq<Case>>, reports: seq<seq<Record>>, order: seq<Case>)
    requires AreShards(cases, shards) && |orders| == |shards|
    requires ShardsReported(cfg, sel, cases, shards, orders, reports)
    requires ParentsFirst(ById(Scored(cfg, cases)), order)
    ensures Flatten(reports) == Map(Reporter(cfg, sel, order), Flatten(orders))
  {
    var report := Reporter(cfg, sel, order);
    forall q | 0 <= q < |shards| ensures reports[q] == Map(report, orders[q]) {
      assert ReportedAt(cfg, sel, cases, shards, orders, reports, q);
      var chosen := Pick(Scored(cfg, cases), Members(shards[q]));
      forall c | c in chosen ensures Emits(cfg, c) {
        PickMember(Scored(cfg, cases), Members(shards[q]), c);
      }
      OrderedAreScored(cfg, cases, chosen, orders[q]);
      ShardIsClosed(cfg, cases, shards, q);
      PartReports(cfg, sel, ShardCases(cfg, cases, shards, q), ById(Scored(cfg, cases)), orders[q], order);
    }
    FlattenMap(report, orders, reports);
  }

  lemma ShardsCoverOnce(cfg: Config, cases: seq<Case>, shards: seq<seq<Id>>)
    requires AreShards(cases, shards)
    ensures forall id | id in ById(Scored(cfg, cases)) ::
              exists q :: 0 <= q < |shards| && id in ShardCases(cfg, cases, shards, q)
    ensures forall q, r, id | 0 <= q < |shards| && 0 <= r < |shards|
              && id in ShardCases(cfg, cases, shards, q) && id in ShardCases(cfg, cases, shards, r) :: q == r
  {
    var scored := Scored(cfg, cases);
    forall id | id in ById(scored) ensures exists q :: 0 <= q < |shards| && id in ShardCases(cfg, cases, shards, q) {
      ByIdMember(scored, id);
      assert id in KnownIds(cases);
      var q :| 0 <= q < |shards| && id in shards[q];
      PickRestricts(scored, Members(shards[q]), id);
      assert id in ShardCases(cfg, cases, shards, q);
    }
    forall q, r, id | 0 <= q < |shards| && 0 <= r < |shards|
                      && id in ShardCases(cfg, cases, shards, q) && id in ShardCases(cfg, cases, shards, r)
      ensures q == r
    {
      PickRestricts(scored, Members(shards[q]), id);
      PickRestricts(scored, Members(shards[r]), id);
      ConnectedRefl(PriorLinks(cases, KnownIds(cases)), id);
      assert SameConversation(cases, id, id);
    }
  }

  lemma OrdersRearrange(cfg: Config, sel: Selector, cases: seq<Case>, shards: seq<seq<Id>>,
                        orders: seq<seq<Case>>, reports: seq<seq<Record>>, order: seq<Case>)
    requires AreShards(cases, shards) && |orders| == |shards|
    requires ShardsReported(cfg, sel, cases, shards, orders, reports)
    requires ParentsFirst(ById(Scored(cfg, cases)), order)
    ensures multiset(Flatten(orders)) == multiset(order)
  {
    var parts := seq(|shards|, q requires 0 <= q < |shards| => ShardCases(cfg, cases, shards, q));
    forall q | 0 <= q < |parts|
      ensures ParentsFirst(parts[q], orders[q]) && ClosedWithin(parts[q], ById(Scored(cfg, cases)))
    {
      assert ReportedAt(cfg, sel, cases, shards, orders, reports, q);
      ShardIsClosed(cfg, cases, shards, q);
    }
    ShardsCoverOnce(cfg, cases, shards);
    forall id | id in ById(Scored(cfg, cases)) ensures exists q :: 0 <= q < |parts| && id in parts[q] {
      var q :| 0 <= q < |shards| && id in ShardCases(cfg, cases, shards, q);
      assert id in parts[q];
    }
    ShardOrdersRearrange(ById(Scored(cfg, cases)), parts, orders, order);
  }

  // Whatever the shards, the orders inside them and the order of the serial run: the
  // merged records, sorted by case id, are the serial records sorted by case id.
  lemma MergedEqualsSerial(cfg: Config, sel: Selector, cases: seq<Case>, shards: seq<seq<Id>>,
                           orders: seq<seq<Case>>, reports: seq<seq<Record>>, order: seq<Case>)
    requires AreShards(cases, shards) && |orders| == |shards|
    requires ShardsReported(cfg, sel, cases, shards, orders, reports)
    requires ParentsFirst(ById(Scored(cfg, cases)), order)
    ensures multiset(Flatten(reports)) == multiset(RunOf(cfg, sel, order).records)
    ensures Sort(Flatten(reports), ByCaseId) == Sort(RunOf(cfg, sel, order).records, ByCaseId)
  {
    OrdersRearrange(cfg, sel, cases, shards, orders, reports, order);
    ShardReports(cfg, sel, cases, shards, orders, reports, order);
    SerialReports(cfg, sel, cases, order);
    MapPermute(Reporter(cfg, sel, order), Flatten(orders), order);
    RecordTiesAreEqual(cfg, sel, order);
    ByCaseIdIsTotalPreorder();
    SortUnique(RunOf(cfg, sel, order).records, Flatten(reports), ByCaseId);
  }

  // Some shard process raises exactly when the serial run would.
  lemma CycleInSomeShard(cfg: Config, cases: seq<Case>, shards: seq<seq<Id>>)
    requires AreShards(cases, shards)
    ensures Cyclic(ById(Scored(cfg, cases)))
        <==> exists q :: 0 <= q < |shards| && Cyclic(ShardCases(cfg, cases, shards, q))
  {
    var whole := ById(Scored(cfg, cases));
    if Cyclic(whole) {
      var p :| IsCycle(whole, p);
      assert p[0] in whole;
      ShardsCoverOnce(cfg, cases, shards);
      var q :| 0 <= q < |shards| && p[0] in ShardCases(cfg, cases, shards, q);
      ShardIsClosed(cfg, cases, shards, q);
      CycleStaysInPart(ShardCases(cfg, cases, shards, q), whole, p);
    }
    if q :| 0 <= q < |shards| && Cyclic(ShardCases(cfg, cases, shards, q)) {
      ShardIsClosed(cfg, cases, shards, q);
      CycleInPartIsCycle(ShardCases(cfg, cases, shards, q), whole);
    }
  }

  // ----- the recomputed aggregates

  predicate Answers(r: Record) { r.isAnswer }
  predicate StrictAnswers(r: Record) { r.isAnswer && r.strict }
  predicate LenientAnswers(r: Record) { r.isAnswer && r.lenient }

  lemma CountIfAppend<T>(s: seq<T>, x: T, p: T -> bool)
    ensures CountIf(s + [x], p) == CountIf(s, p) + if p(x) then 1 else 0
  {
    assert (s + [x])[..|s|] == s;
  }

  lemma TallyStep(records: seq<Record>, r: Record)
    ensures TallyOf(records + [r]) == Tally(CountIf(records, Answers) + if Answers(r) then 1 else 0,
                                            CountIf(records, LenientAnswers) + if LenientAnswers(r) then 1 else 0,
                                            CountIf(records, StrictAnswers) + if StrictAnswers(r) then 1 else 0)
  {
    CountIfAppend(records, r, Answers);
    CountIfAppend(records, r, LenientAnswers);
    CountIfAppend(records, r, StrictAnswers);
  }

  // The reranker accumulator counts what the answer records say.
  lemma {:induction false} TallyCountsRecords(cfg: Config, sel: Selector, order: seq<Case>)
    ensures RunOf(cfg, sel, order).tallies[2] == TallyOf(RunOf(cfg, sel, order).records)
  {
    if order != [] {
      var n := |order| - 1;
      TallyCountsRecords(cfg, sel, order[..n]);
      var before, c := RunOf(cfg, sel, order[..n]), order[n];
      StepTally(cfg, sel, c, Carry(cfg, sel, c, before.predicted), before);
    }
  }

  lemma StepTally(cfg: Config, sel: Selector, c: Case, carry: Option<Doc>, before: Run)
    requires |before.tallies| == |STAGES| && before.tallies[2] == TallyOf(before.records)
    ensures Step(cfg, sel, c, carry, before).tallies[2] == TallyOf(Step(cfg, sel, c, carry, before).records)
  {
    if Emits(cfg, c) {
      TallyStep(before.records, MakeRecord(sel, c, sel.trace(c.question, carry, Reranker)));
    } else {
      assert Step(cfg, sel, c, carry, before).records == before.records;
    }
  }

  function TallyOf(records: seq<Record>): Tally {
    Tally(CountIf(records, Answers), CountIf(records, LenientAnswers), CountIf(records, StrictAnswers))
  }

  // The recall a serial report prints for the reranker stage, zero without answers.
  function SerialRecall(hits: nat, n: nat): real {
    if n > 0 then hits as real / n as real else 0.0
  }

  lemma AggregatesEqualSerial(cfg: Config, sel: Selector, order: seq<Case>, merged: seq<Record>)
    requires multiset(merged) == multiset(RunOf(cfg, sel, order).records)
    ensures var t := RunOf(cfg, sel, order).tallies[2];
            && CountIf(merged, Answers) == t.n
            && Recall(CountIf(merged, StrictAnswers), t.n) == SerialRecall(t.strict, t.n)
            && Recall(CountIf(merged, LenientAnswers), t.n) == SerialRecall(t.lenient, t.n)
  {
    var records := RunOf(cfg, sel, order).records;
    TallyCountsRecords(cfg, sel, order);
    CountIfPermute(merged, records, Answers);
    CountIfPermute(merged, records, StrictAnswers);
    CountIfPermute(merged, records, LenientAnswers);
    CountIfWeaker(records, StrictAnswers, Answers);
    CountIfWeaker(records, LenientAnswers, Answers);
  }

  lemma {:induction false} CountIfWeaker<T(!new)>(s: seq<T>, p: T -> bool, q: T -> bool)
    requires forall x :: p(x) ==> q(x)
    ensures CountIf(s, p) <= CountIf(s, q)
  {
    if s != [] { CountIfWeaker(s[..|s| - 1], p, q); }
  }

  // What any serial run, in any order `conversation_order` may produce, would have given.
  ghost predicate MatchesSerial(cfg: Config, sel: Selector, cases: seq<Case>, order: seq<Case>, report: Report) {
    var run := RunOf(cfg, sel, order);
    var tally := run.tallies[2];
    && report.records == Sort(run.records, ByCaseId)
    && report.answers == tally.n
    && report.strictRecall == SerialRecall(tally.strict, tally.n)
    && report.lenientRecall == SerialRecall(tally.lenient, tally.n)
  }

  function Summary(merged: seq<Record>): Report {
    var answers := CountIf(merged, Answers);
    Report(merged, answers, Recall(CountIf(merged, StrictAnswers), answers),
           Recall(CountIf(merged, LenientAnswers), answers))
  }

  // `main` of v09_parallel_eval.py: shard, evaluate each shard on its own, merge.
  method EvaluateInParallel(cfg: Config, sel: Selector, cases: seq<Case>, workers: int) returns (r: Result<Report>)
    ensures r.Raised? <==> (workers <= 0 && cases != []) || Cyclic(ById(Scored(cfg, cases)))
    ensures r.Ok? ==> forall order | ParentsFirst(ById(Scored(cfg, cases)), order) ::
                        MatchesSerial(cfg, sel, cases, order, r.value)
    ensures r.Ok? ==> forall i, j | 0 <= i < j < |r.value.records| ::
                        Le(r.value.records[i].caseId, r.value.records[j].caseId)
  {
    var sharded, components := ShardIds(cases, workers);
    if sharded.Raised? {
      return Raised;
    }
    var reported, orders := RunShards(cfg, sel, cases, sharded.value);
    CycleInSomeShard(cfg, cases, sharded.value);
    if reported.Raised? {
      return Raised;
    }
    var merged := Merge(reported.value);
    SortedById(Flatten(reported.value));
    forall order | ParentsFirst(ById(Scored(cfg, cases)), order)
      ensures MatchesSerial(cfg, sel, cases, order, Summary(merged))
    {
      MergedEqualsSerial(cfg, sel, cases, sharded.value, orders, reported.value, order);
      AggregatesEqualSerial(cfg, sel, order, merged);
    }
    return Ok(Summary(merged));
  }

  lemma SortedById(records: seq<Record>)
    ensures var sorted := Sort(records, ByCaseId);
      forall i, j | 0 <= i < j < |sorted| :: Le(sorted[i].caseId, sorted[j].caseId)
  {
    LeIsTotalPreorder();
    SortOrdered(records, ByCaseId);
    forall i, j | 0 <= i < j < |records| ensures ByCaseId(Sort(records, ByCaseId)[i], Sort(records, ByCaseId)[j]) {
    }
  }

  // One process per shard; any failure fails the whole run.
  method RunShards(cfg: Config, sel: Selector, cases: seq<Case>, shards: seq<seq<Id>>)
    returns (r: Result<seq<seq<Record>>>, ghost orders: seq<seq<Case>>)
    ensures r.Raised? <==> exists q :: 0 <= q < |shards| && Cyclic(ShardCases(cfg, cases, shards, q))
    ensures r.Ok? ==> |orders| == |shards| && ShardsReported(cfg, sel, cases, shards, orders, r.value)
  {
    var reports: seq<seq<Record>> := [];
    var failures: seq<nat> := [];
    orders := [];
    for q := 0 to |shards|
      invariant failures == [] ==> |orders| == q && ShardsReported(cfg, sel, cases, shards, orders, reports)
      invariant failures != [] ==> failures[0] < q && Cyclic(ShardCases(cfg, cases, shards, failures[0]))
    {
      var run, order := RunShard(cfg, sel, cases, shards, q);
      if run.Raised? {
        failures := failures + [q];
      } else {
        if failures == [] {
          ReportedAppend(cfg, sel, cases, shards, orders, reports, order, run.value.records);
        }
        reports, orders := reports + [run.value.records], orders + [order];
      }
    }
    if failures != [] {
      return Raised, orders;
    }
    ReportedIsAcyclic(cfg, sel, cases, shards, orders, reports);
    return Ok(reports), orders;
  }

  method RunShard(cfg: Config, sel: Selector, cases: seq<Case>, shards: seq<seq<Id>>, q: nat)
    returns (r: Result<Run>, ghost order: seq<Case>)
    requires q < |shards|
    ensures r.Raised? ==> Cyclic(ShardCases(cfg, cases, shards, q))
    ensures r.Ok? ==> Reported(cfg, sel, ShardCases(cfg, cases, shards, q), order, r.value.records)
  {
    r, order := EvaluateSerially(cfg, sel, cases, Some(shards[q]));
  }

  lemma ReportedAppend(cfg: Config, sel: Selector, cases: seq<Case>, shards: seq<seq<Id>>,
                       orders: seq<seq<Case>>, reports: seq<seq<Record>>, order: seq<Case>, report: seq<Record>)
    requires |orders| < |shards| && ShardsReported(cfg, sel, cases, shards, orders, reports)
    requires Reported(cfg, sel, ShardCases(cfg, cases, shards, |orders|), order, report)
    ensures ShardsReported(cfg, sel, cases, shards, orders + [order], reports + [report])
  {
    hide Reported, ShardCases;
    var orders', reports' := orders + [order], reports + [report];
    forall q: nat | q < |orders'| ensures ReportedAt(cfg, sel, cases, shards, orders', reports', q) {
      if q < |orders| {
        assert ReportedAt(cfg, sel, cases, shards, orders, reports, q);
      }
    }
  }

  lemma ReportedIsAcyclic(cfg: Config, sel: Selector, cases: seq<Case>, shards: seq<seq<Id>>,
                          orders: seq<seq<Case>>, reports: seq<seq<Record>>)
    requires |orders| == |shards| && ShardsReported(cfg, sel, cases, shards, orders, reports)
    ensures forall q | 0 <= q < |shards| :: !Cyclic(ShardCases(cfg, cases, shards, q))
  {
    forall q | 0 <= q < |shards| ensures !Cyclic(ShardCases(cfg, cases, shards, q)) {
      assert ReportedAt(cfg, sel, cases, shards, orders, reports, q);
      ParentsFirstIsAcyclic(ShardCases(cfg, cases, shards, q), orders[q]);
    }
  }

  // The reports end to end, then sorted by case id.
  method Merge(reports: seq<seq<Record>>) returns (merged: seq<Record>)
    ensures merged == Sort(Flatten(reports), ByCaseId)
  {
    merged := [];
    for q := 0 to |reports|
      invariant merged == Flatten(reports[..q])
    {
      assert reports[..q + 1][..q] == reports[..q];
      merged := merged + reports[q];
    }
    assert reports[..|reports|] == reports;
    merged := Sort(merged, ByCaseId);
  }

  lemma OrdersOfSameCases(cases: map<Id, Case>, a: seq<Case>, b: seq<Case>)
    requires ParentsFirst(cases, a) && ParentsFirst(cases, b)
    ensures multiset(a) == multiset(b)
  {
    forall c ensures c in a <==> c in b {
      if c in a {
        OrderedIsKnown(cases, a, c);
        assert Listed(cases, b, c.id);
      }
      if c in b {
        OrderedIsKnown(cases, b, c);
        assert Listed(cases, a, c.id);
      }
    }
    DistinctSameMembers(a, b);
  }

  // Completion and stream order never matter: any two parent-first runs agree.
  lemma AnyOrderReportsTheSame(cfg: Config, sel: Selector, cases: seq<Case>, a: seq<Case>, b: seq<Case>)
    requires ParentsFirst(ById(Scored(cfg, cases)), a) && ParentsFirst(ById(Scored(cfg, cases)), b)
    ensures Sort(RunOf(cfg, sel, a).records, ByCaseId) == Sort(RunOf(cfg, sel, b).records, ByCaseId)
  {
    var whole := ById(Scored(cfg, cases));
    WholeIsClosed(Scored(cfg, cases));
    OrderedAreScored(cfg, cases, Scored(cfg, cases), a);
    OrdersOfSameCases(whole, a, b);
    PartReports(cfg, sel, whole, whole, a, b);
    SerialReports(cfg, sel, cases, b);
    MapPermute(Reporter(cfg, sel, b), a, b);
    RecordTiesAreEqual(cfg, sel, b);
    ByCaseIdIsTotalPreorder();
    SortUnique(RunOf(cfg, sel, b).records, RunOf(cfg, sel, a).records, ByCaseId);
  }
}
