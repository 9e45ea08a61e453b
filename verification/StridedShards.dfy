// The v0.5 qualification run: which cases it selects, what their parent turns carry into
// them, and the rows it emits, for the whole benchmark or one stride of it.
module StridedShards {
  import opened CaseIds
  import opened Conversations
  import opened Replay
  import opened Sorting
  import opened Wrappers

  // ----- outcome rows

  datatype System =
    | FlatLexical | FeatureFusion | ContextualLinker | QueryFrame
    | ExactGraph | FullController | ConstrainedRealizer | VerifiedRag

  function Rank(system: System): (k: nat)
    ensures k < 8
  {
    match system
    case FlatLexical => 0
    case FeatureFusion => 1
    case ContextualLinker => 2
    case QueryFrame => 3
    case ExactGraph => 4
    case FullController => 5
    case ConstrainedRealizer => 6
    case VerifiedRag => 7
  }

  // The enumeration's own order.
  function SystemAt(k: nat): (system: System)
    requires k < 8
    ensures Rank(system) == k
  {
    match k
    case 0 => FlatLexical
    case 1 => FeatureFusion
    case 2 => ContextualLinker
    case 3 => QueryFrame
    case 4 => ExactGraph
    case 5 => FullController
    case 6 => ConstrainedRealizer
    case _ => VerifiedRag
  }

  datatype Row = Row(id: Id, system: System, payload: string)

  datatype Key = Key(id: Id, system: System)

  // The outcome of a case in a system.
  type Outcomes = (Case, System) -> string

  // The eight rows of one case, in the order they are emitted.
  function RowsOfCase(c: Case, outcomes: Outcomes): (rows: seq<Row>)
    ensures |rows| == 8
    ensures forall k | 0 <= k < 8 :: rows[k] == Row(c.id, SystemAt(k), outcomes(c, SystemAt(k)))
  {
    seq(8, k requires 0 <= k < 8 => Row(c.id, SystemAt(k), outcomes(c, SystemAt(k))))
  }

  function RowsOf(cases: seq<Case>, outcomes: Outcomes): seq<Row> {
    if cases == [] then [] else RowsOf(cases[..|cases| - 1], outcomes) + RowsOfCase(cases[|cases| - 1], outcomes)
  }

  // ----- one run

  datatype Stride = Stride(index: int, count: int)

  predicate GoodStride(stride: Stride) { stride.count >= 2 && 0 <= stride.index < stride.count }

  // Every count-th element, from the one at `index`.
  function Strided<T>(cases: seq<T>, index: int, count: int): seq<T>
    requires count > 0
  {
    if cases == [] then []
    else
      var n := |cases| - 1;
      Strided(cases[..n], index, count) + if n % count == index then [cases[n]] else []
  }

  lemma {:induction false} StridedGap<T>(cases: seq<T>, index: nat, count: nat, k: nat, n: nat)
    requires 0 <= index < count && k <= n <= |cases|
    requires forall i | k <= i < n :: i % count != index
    ensures Strided(cases[..n], index, count) == Strided(cases[..k], index, count)
    decreases n
  {
    if k < n {
      var m := n - 1;
      StridedGap(cases, index, count, k, m);
      assert cases[..n][..m] == cases[..m];
      assert m % count != index;
    }
  }

  lemma MultipleIsFar(count: nat, m: int)
    ensures m >= 1 ==> count * m >= count
    ensures m <= -1 ==> count * m <= 0 - count
  {
    if m >= 1 {
      assert count * (m - 1) >= 0;
    } else if m <= -1 {
      assert count * (-m - 1) >= 0;
    }
  }

  lemma RemainderOf(a: nat, count: nat, q: int, r: nat)
    requires r < count && a == count * q + r
    ensures a % count == r
  {
    assert a == count * (a / count) + a % count;
    assert count * (q - a / count) == a % count - r;
    MultipleIsFar(count, q - a / count);
  }

  // From one position of a stride to the next there is none between.
  lemma NextInStride(i: nat, j: nat, index: nat, count: nat)
    requires index < count && i % count == index && i < j <= i + count
    ensures j % count == index <==> j == i + count
  {
    assert i == count * (i / count) + index;
    assert j == count * (j / count) + j % count;
    assert count * (j / count - i / count) == j - i - (j % count - index);
    MultipleIsFar(count, j / count - i / count - 1);
    if j == i + count {
      assert count * (i / count + 1) == count * (i / count) + count;
      RemainderOf(j, count, i / count + 1, index);
    } else {
      MultipleIsFar(count, j / count - i / count);
    }
  }

  lemma StrideStep<T>(cases: seq<T>, index: nat, count: nat, i: nat, next: nat)
    requires index < count && i < |cases| && i % count == index
    requires i < next <= i + count && next <= |cases|
    ensures Strided(cases[..next], index, count) == Strided(cases[..i], index, count) + [cases[i]]
  {
    forall j | i + 1 <= j < next ensures j % count != index { NextInStride(i, j, index, count); }
    StridedGap(cases, index, count, i + 1, next);
    assert cases[..i + 1][..i] == cases[..i];
  }

  method TakeStride<T>(cases: seq<T>, index: nat, count: nat) returns (mine: seq<T>)
    requires index < count
    ensures mine == Strided(cases, index, count)
  {
    hide Strided;
    mine := [];
    var i := index;
    var reached := if index < |cases| then index else |cases|;
    StrideStart(cases, index, count, reached);
    while i < |cases|
      invariant i % count == index
      invariant reached == if i < |cases| then i else |cases|
      invariant mine == Strided(cases[..reached], index, count)
    {
      mine := mine + [cases[i]];
      NextInStride(i, i + count, index, count);
      reached := if i + count < |cases| then i + count else |cases|;
      StrideStep(cases, index, count, i, reached);
      i := i + count;
    }
    assert cases[..|cases|] == cases;
  }

  lemma StrideStart<T>(cases: seq<T>, index: nat, count: nat, n: nat)
    requires index < count && n <= index && n <= |cases|
    ensures index % count == index && Strided(cases[..n], index, count) == []
  {
    RemainderOf(index, count, 0, index);
    forall j | 0 <= j < n ensures j % count != index { RemainderOf(j, count, 0, j); }
    StridedGap(cases, index, count, 0, n);
  }

  lemma {:induction false} StridedPrefix<T>(cases: seq<T>, index: int, count: int, n: nat)
    requires count > 0 && n <= |cases|
    ensures Strided(cases[..n], index, count) <= Strided(cases, index, count)
    decreases |cases|
  {
    if n < |cases| {
      var m := |cases| - 1;
      StridedPrefix(cases[..m], index, count, n);
      assert cases[..m][..n] == cases[..n];
    } else {
      assert cases[..n] == cases;
    }
  }

  lemma StrideOn(index: nat, count: nat, k: nat)
    requires index < count
    ensures (index + k * count) % count == index && index + (k + 1) * count == index + k * count + count
  {
    assert (k + 1) * count == k * count + count;
    RemainderOf(index + k * count, count, k, index);
  }

  lemma {:induction false} StridedBefore<T>(cases: seq<T>, index: nat, count: nat, k: nat)
    requires index < count && index + k * count <= |cases|
    ensures |Strided(cases[..index + k * count], index, count)| == k
  {
    hide Strided;
    if k == 0 {
      StrideStart(cases, index, count, index);
    } else {
      StrideOn(index, count, k - 1);
      StridedBefore(cases, index, count, k - 1);
      StrideStep(cases, index, count, index + (k - 1) * count, index + k * count);
    }
  }

  // The k-th case of a stride is the one at index + k * count.
  lemma StridedAt<T>(cases: seq<T>, index: nat, count: nat, k: nat)
    requires index < count && index + k * count < |cases|
    ensures k < |Strided(cases, index, count)| && Strided(cases, index, count)[k] == cases[index + k * count]
  {
    hide Strided;
    var i := index + k * count;
    StrideOn(index, count, k);
    StridedBefore(cases, index, count, k);
    StrideStep(cases, index, count, i, i + 1);
    StridedPrefix(cases, index, count, i + 1);
    assert Strided(cases[..i + 1], index, count)[k] == cases[i];
  }

  lemma {:induction false} RowsOfAt(cases: seq<Case>, outcomes: Outcomes, i: nat, s: nat)
    requires i < |cases| && s < 8
    ensures |RowsOf(cases, outcomes)| == 8 * |cases|
    ensures RowsOf(cases, outcomes)[8 * i + s] == Row(cases[i].id, SystemAt(s), outcomes(cases[i], SystemAt(s)))
    decreases |cases|
  {
    var n := |cases| - 1;
    RowsLength(cases[..n], outcomes);
    if i < n { RowsOfAt(cases[..n], outcomes, i, s); }
  }

  lemma {:induction false} RowsLength(cases: seq<Case>, outcomes: Outcomes)
    ensures |RowsOf(cases, outcomes)| == 8 * |cases|
  {
    if cases != [] { RowsLength(cases[..|cases| - 1], outcomes); }
  }

  // The cases a run selects; the two ways of selecting exclude each other.
  function Selected(cases: seq<Case>, limit: Option<int>, stride: Option<Stride>): Result<seq<Case>> {
    if limit.Some? && (limit.value < 1 || stride.Some?) then Raised
    else if limit.Some? then Ok(if limit.value < |cases| then cases[..limit.value] else cases)
    else if stride.None? then Ok(cases)
    else if GoodStride(stride.value) then Ok(Strided(cases, stride.value.index, stride.value.count))
    else Raised
  }

  // Completing a case in a system, given the entities its parent turns left.
  type Completion = (Case, seq<Entity>, System) -> string

  // The entities of the priors that were replayed, end to end.
  function PriorsFrom(replayed: map<Id, seq<Entity>>, priors: seq<Id>): seq<Entity> {
    if priors == [] then []
    else
      var last := priors[|priors| - 1];
      PriorsFrom(replayed, priors[..|priors| - 1]) + if last in replayed then replayed[last] else []
  }

  function OutcomesFrom(replayed: map<Id, seq<Entity>>, complete: Completion): Outcomes {
    (c: Case, system: System) => complete(c, Distinct(PriorsFrom(replayed, c.priors)), system)
  }

  // The outcomes a benchmark determines: every case completed with what its parent turns carry, by the plain
  // recursion over the whole benchmark.
  ghost function BenchmarkOutcomes(benchmark: seq<Case>, link: Linker, complete: Completion): Outcomes {
    (c: Case, system: System) => complete(c, Distinct(Carried(benchmark, link, c.priors)), system)
  }

  ghost function Carried(benchmark: seq<Case>, link: Linker, priors: seq<Id>): seq<Entity> {
    match AllLinked(ById(benchmark), link, priors)
    case Some(entities) => entities
    case None => []
  }

  lemma {:induction false} ReplayedIsCarried(benchmark: seq<Case>, link: Linker, replayed: map<Id, seq<Entity>>,
                                             priors: seq<Id>)
    requires forall p | p in priors :: p in replayed && Linked(ById(benchmark), link, p) == Some(replayed[p])
    ensures AllLinked(ById(benchmark), link, priors) == Some(PriorsFrom(replayed, priors))
  {
    if priors != [] {
      ReplayedIsCarried(benchmark, link, replayed, priors[..|priors| - 1]);
    }
  }

  lemma {:induction false} RowsAgree(cases: seq<Case>, outcomes: Outcomes, others: Outcomes)
    requires forall c, system | c in cases :: outcomes(c, system) == others(c, system)
    ensures RowsOf(cases, outcomes) == RowsOf(cases, others)
  {
    if cases != [] {
      var n := |cases| - 1;
      RowsAgree(cases[..n], outcomes, others);
      assert RowsOfCase(cases[n], outcomes) == RowsOfCase(cases[n], others);
    }
  }

  // What was replayed gives the outcomes the benchmark determines, in every part of it.
  lemma ReplayedOutcomes(benchmark: seq<Case>, link: Linker, complete: Completion, replayed: map<Id, seq<Entity>>,
                         part: seq<Case>)
    requires forall p | Declared(benchmark, p) :: p in replayed && Linked(ById(benchmark), link, p) == Some(replayed[p])
    requires forall c | c in part :: c in benchmark
    ensures RowsOf(part, OutcomesFrom(replayed, complete)) == RowsOf(part, BenchmarkOutcomes(benchmark, link, complete))
  {
    var outcomes, others := OutcomesFrom(replayed, complete), BenchmarkOutcomes(benchmark, link, complete);
    forall c, system | c in part ensures outcomes(c, system) == others(c, system) {
      var k :| 0 <= k < |benchmark| && benchmark[k] == c;
      forall p | p in c.priors ensures Declared(benchmark, p) {
        assert p in benchmark[k].priors;
      }
      ReplayedIsCarried(benchmark, link, replayed, c.priors);
      assert Carried(benchmark, link, c.priors) == PriorsFrom(replayed, c.priors);
      assert outcomes(c, system) == complete(c, Distinct(PriorsFrom(replayed, c.priors)), system);
    }
    RowsAgree(part, outcomes, others);
  }

  ghost predicate CarriedBy(benchmark: seq<Case>, link: Linker, priors: seq<Id>, entity: Entity) {
    exists p :: p in priors &&
      Linked(ById(benchmark), link, p).Some? && entity in Linked(ById(benchmark), link, p).value
  }

  lemma {:induction false} AllLinkedMember(benchmark: seq<Case>, link: Linker, priors: seq<Id>, entity: Entity)
    requires AllLinked(ById(benchmark), link, priors).Some?
    ensures entity in AllLinked(ById(benchmark), link, priors).value <==> CarriedBy(benchmark, link, priors, entity)
  {
    hide Linked;
    if priors != [] {
      var n := |priors| - 1;
      AllLinkedMember(benchmark, link, priors[..n], entity);
      assert priors == priors[..n] + [priors[n]];
    }
  }

  // A case is completed with each entity of its replayed priors, once.
  lemma OutcomeMeans(benchmark: seq<Case>, link: Linker, complete: Completion, c: Case, system: System)
    returns (entities: seq<Entity>)
    requires AllLinked(ById(benchmark), link, c.priors).Some?
    ensures BenchmarkOutcomes(benchmark, link, complete)(c, system) == complete(c, entities, system)
    ensures NoRepeats(entities) && forall x :: x in entities <==> CarriedBy(benchmark, link, c.priors, x)
  {
    hide CarriedBy;
    entities := Distinct(Carried(benchmark, link, c.priors));
    forall x ensures x in entities <==> CarriedBy(benchmark, link, c.priors, x) {
      AllLinkedMember(benchmark, link, c.priors, x);
    }
  }

  lemma {:induction false} StridedMember<T>(cases: seq<T>, index: int, count: int, x: T)
    requires count > 0 && x in Strided(cases, index, count)
    ensures x in cases
  {
    var n := |cases| - 1;
    if x in Strided(cases[..n], index, count) {
      StridedMember(cases[..n], index, count, x);
    }
  }

  lemma SelectedMember(cases: seq<Case>, limit: Option<int>, stride: Option<Stride>, c: Case)
    requires Selected(cases, limit, stride).Ok? && c in Selected(cases, limit, stride).value
    ensures c in cases
  {
    if stride.Some? {
      StridedMember(cases, stride.value.index, stride.value.count, c);
    }
  }

  // The parent turns of the benchmark cannot all be replayed.
  ghost predicate Unreplayable(benchmark: seq<Case>) {
    exists p :: Declared(benchmark, p) && Doomed(ById(benchmark), p)
  }

  // `_run` behind `_parse_case_shard`: parent turns are replayed over the whole benchmark, whatever is selected;
  // then every selected case gets its eight rows.
  method Run(cases: seq<Case>, evidenceLimit: int, limit: Option<int>, stride: Option<Stride>, link: Linker,
             complete: Completion)
    returns (outcomes: Result<seq<Row>>)
    ensures outcomes.Raised? <==>
      !(1 <= evidenceLimit <= 64) || Selected(cases, limit, stride).Raised? || Unreplayable(cases)
    ensures outcomes.Ok? ==>
      outcomes.value == RowsOf(Selected(cases, limit, stride).value, BenchmarkOutcomes(cases, link, complete))
    ensures outcomes.Raised? <==>
      || !(1 <= evidenceLimit <= 64)
      || (limit.Some? && (limit.value < 1 || stride.Some?))
      || (stride.Some? && (stride.value.count < 2 || !(0 <= stride.value.index < stride.value.count)))
      || Unreplayable(cases)
  {
    if stride.Some? && !GoodStride(stride.value) {
      return Raised;
    }
    if !(1 <= evidenceLimit <= 64) {
      return Raised;
    }
    if limit.Some? && limit.value < 1 {
      return Raised;
    }
    if limit.Some? && stride.Some? {
      return Raised;
    }
    var mine := cases;
    if limit.Some? {
      mine := if limit.value < |cases| then cases[..limit.value] else cases;
    } else if stride.Some? {
      mine := TakeStride(cases, stride.value.index, stride.value.count);
    }
    var replayed := ReplayAllPriors(cases, link);
    if replayed.None? {
      return Raised;
    }
    var rows := EmitRows(mine, OutcomesFrom(replayed.value, complete));
    forall c | c in mine ensures c in cases { SelectedMember(cases, limit, stride, c); }
    ReplayedOutcomes(cases, link, complete, replayed.value, mine);
    return Ok(rows);
  }

  // The loop over the selected cases.
  method EmitRows(cases: seq<Case>, outcomes: Outcomes) returns (rows: seq<Row>)
    ensures rows == RowsOf(cases, outcomes)
  {
    rows := [];
    for k := 0 to |cases|
      invariant rows == RowsOf(cases[..k], outcomes)
    {
      assert cases[..k + 1][..k] == cases[..k];
      rows := rows + RowsOfCase(cases[k], outcomes);
    }
    assert cases[..|cases|] == cases;
  }

  // ----- the strides partition the cases

  ghost function StrideFamily<T>(cases: seq<T>, count: nat): (family: seq<seq<T>>)
    requires count > 0
    ensures |family| == count && forall i | 0 <= i < count :: family[i] == Strided(cases, i, count)
  {
    seq(count, i requires 0 <= i < count => Strided(cases, i, count))
  }

  // A further case joins the stride of its position.
  lemma FamilyStep<T>(cases: seq<T>, count: nat, before: seq<seq<T>>, r: nat)
    requires count > 0 && cases != [] && r == (|cases| - 1) % count
    requires before == StrideFamily(cases[..|cases| - 1], count)
    ensures StrideFamily(cases, count) == before[r := before[r] + [cases[|cases| - 1]]]
  {
    var family, last := StrideFamily(cases, count), cases[|cases| - 1];
    forall i | 0 <= i < count ensures family[i] == if i == r then before[i] + [last] else before[i] {
      assert before[i] + [] == before[i];
    }
  }

  lemma {:induction false} StridesPartition<T>(cases: seq<T>, count: nat)
    requires count > 0
    ensures multiset(Flatten(StrideFamily(cases, count))) == multiset(cases)
  {
    hide Strided, StrideFamily;
    if cases == [] {
      NoCases<T>(count);
    } else {
      var n := |cases| - 1;
      var before, r := StrideFamily(cases[..n], count), n % count;
      StridesPartition(cases[..n], count);
      FlattenExtend(before, r, [cases[n]]);
      FamilyStep(cases, count, before, r);
      assert cases == cases[..n] + [cases[n]];
    }
  }

  lemma NoCases<T>(count: nat)
    requires count > 0
    ensures Flatten(StrideFamily<T>([], count)) == []
  {
    FlattenEmpties(StrideFamily<T>([], count));
  }

  lemma {:induction false} RowsAreFlattened(cases: seq<Case>, outcomes: Outcomes)
    ensures RowsOf(cases, outcomes) == Flatten(Map(c => RowsOfCase(c, outcomes), cases))
  {
    if cases != [] {
      var n, f := |cases| - 1, c => RowsOfCase(c, outcomes);
      RowsAreFlattened(cases[..n], outcomes);
      assert Map(f, cases)[..n] == Map(f, cases[..n]);
    }
  }

  lemma RowsPermute(a: seq<Case>, b: seq<Case>, outcomes: Outcomes)
    requires multiset(a) == multiset(b)
    ensures multiset(RowsOf(a, outcomes)) == multiset(RowsOf(b, outcomes))
  {
    var f := c => RowsOfCase(c, outcomes);
    RowsAreFlattened(a, outcomes);
    RowsAreFlattened(b, outcomes);
    MapPermute(f, a, b);
    FlattenPermute(Map(f, a), Map(f, b));
  }

  lemma RowsConcat(a: seq<Case>, b: seq<Case>, outcomes: Outcomes)
    ensures RowsOf(a + b, outcomes) == RowsOf(a, outcomes) + RowsOf(b, outcomes)
  {
    hide RowsOf, RowsOfCase;
    var f := c => RowsOfCase(c, outcomes);
    RowsAreFlattened(a, outcomes);
    RowsAreFlattened(b, outcomes);
    RowsAreFlattened(a + b, outcomes);
    assert Map(f, a + b) == Map(f, a) + Map(f, b);
    FlattenConcat(Map(f, a), Map(f, b));
  }

  lemma {:induction false} RowsOfParts(parts: seq<seq<Case>>, outcomes: Outcomes)
    ensures Flatten(Map(part => RowsOf(part, outcomes), parts)) == RowsOf(Flatten(parts), outcomes)
  {
    if parts != [] {
      var n, f := |parts| - 1, part => RowsOf(part, outcomes);
      RowsOfParts(parts[..n], outcomes);
      assert Map(f, parts)[..n] == Map(f, parts[..n]);
      RowsConcat(Flatten(parts[..n]), parts[n], outcomes);
    }
  }
}
