// Merging qualification shards: which inputs are accepted, and what comes out.
module ShardMerge {
  import opened CaseIds
  import opened Conversations
  import opened Replay
  import opened Sorting
  import opened StridedShards
  import opened Wrappers

  // What a shard reports about itself; its rows are in a file of their own.
  datatype Report = Report(qualification: string, complete: bool, benchmarkHash: string, packVerified: bool,
                           packHash: string, stride: Option<Stride>)

  const QUALIFICATION := "AETHERSPARSE_V050_SQLITE_CONTROLLER_QUALIFICATION_R2"

  // An unfinished shard of this qualification, over this benchmark and a verified pack.
  predicate GoodReport(report: Report, benchmarkHash: string) {
    && report.qualification == QUALIFICATION && !report.complete
    && report.benchmarkHash == benchmarkHash && report.packVerified && report.stride.Some?
  }

  // ----- the index check

  // A report without a stride is refused before its index is looked at.
  function IndexOf(report: Report): int { if report.stride.Some? then report.stride.value.index else -1 }

  function Indices(reports: seq<Report>): (indices: seq<int>)
    ensures |indices| == |reports| && forall k | 0 <= k < |reports| :: indices[k] == IndexOf(reports[k])
  {
    seq(|reports|, k requires 0 <= k < |reports| => IndexOf(reports[k]))
  }

  function Range(count: int): (range: seq<int>)
    ensures |range| == (if count > 0 then count else 0) && forall k | 0 <= k < |range| :: range[k] == k
    ensures forall k :: k in range <==> 0 <= k < count
    decreases if count > 0 then count else 0
  {
    if count <= 0 then [] else Range(count - 1) + [count - 1]
  }

  function SetOf<T(==,!new)>(s: seq<T>): set<T> { set x | x in s }

  // As many reports as the declared count, and every index below it.
  predicate IndicesComplete(indices: seq<int>, count: int) {
    |indices| == count && SetOf(indices) == SetOf(Range(count))
  }

  lemma {:induction false} DistinctSize<T(!new)>(s: seq<T>)
    requires NoRepeats(s)
    ensures |SetOf(s)| == |s|
  {
    if s != [] {
      var n := |s| - 1;
      DistinctSize(s[..n]);
      assert s == s[..n] + [s[n]];
      assert SetOf(s) == SetOf(s[..n]) + {s[n]};
    }
  }

  lemma FullSetNoRepeats<T(!new)>(s: seq<T>)
    requires |SetOf(s)| == |s|
    ensures NoRepeats(s)
  {
    assert SetOf(Distinct(s)) == SetOf(s);
    DistinctSize(Distinct(s));
    DistinctLength(s);
  }

  // The check passes exactly for the arrangements of 0, 1, ..., count - 1.
  lemma IndexCheckIff(indices: seq<int>, count: int)
    ensures IndicesComplete(indices, count) <==> count >= 0 && multiset(indices) == multiset(Range(count))
  {
    if IndicesComplete(indices, count) {
      DistinctSize(Range(count));
      FullSetNoRepeats(indices);
      forall k ensures k in indices <==> k in Range(count) {
        assert k in indices <==> k in SetOf(indices);
        assert k in Range(count) <==> k in SetOf(Range(count));
      }
      DistinctSameMembers(indices, Range(count));
    }
    if count >= 0 && multiset(indices) == multiset(Range(count)) {
      assert |multiset(indices)| == |indices| && |multiset(Range(count))| == |Range(count)|;
      forall k ensures k in indices <==> k in Range(count) {
        assert k in indices <==> k in multiset(indices);
        assert k in Range(count) <==> k in multiset(Range(count));
      }
    }
  }

  // ----- the row checks

  function KeyOf(row: Row): Key { Key(row.id, row.system) }

  ghost function Keys(rows: seq<Row>): seq<Key> { Map(KeyOf, rows) }

  // Every system for every case, in benchmark order.
  ghost function GridRow(id: Id): (keys: seq<Key>)
    ensures |keys| == 8 && forall k | 0 <= k < 8 :: keys[k] == Key(id, SystemAt(k))
  {
    seq(8, k requires 0 <= k < 8 => Key(id, SystemAt(k)))
  }

  ghost function Grid(ids: seq<Id>): seq<Key> {
    if ids == [] then [] else Grid(ids[..|ids| - 1]) + GridRow(ids[|ids| - 1])
  }

  // The ids of the rows of one system.
  function IdsFor(rows: seq<Row>, system: System): seq<Id> {
    if rows == [] then []
    else
      var last := rows[|rows| - 1];
      IdsFor(rows[..|rows| - 1], system) + if last.system == system then [last.id] else []
  }

  lemma LastRow(rows: seq<Row>, system: System)
    requires rows != []
    ensures var front, last := rows[..|rows| - 1], rows[|rows| - 1];
      && Keys(rows) == Keys(front) + [KeyOf(last)]
      && IdsFor(rows, system) ==
           if last.system == system then IdsFor(front, system) + [last.id] else IdsFor(front, system)
  {
  }

  lemma {:induction false} KeyCounts(rows: seq<Row>, id: Id, system: System)
    ensures multiset(Keys(rows))[Key(id, system)] == multiset(IdsFor(rows, system))[id]
    decreases |rows|, 1
  {
    if rows == [] {
      assert Keys(rows) == [] && IdsFor(rows, system) == [];
    } else {
      CountLast(rows, id, system, rows[..|rows| - 1], rows[|rows| - 1]);
    }
  }

  lemma CountLast(rows: seq<Row>, id: Id, system: System, front: seq<Row>, last: Row)
    requires rows != [] && front == rows[..|rows| - 1] && last == rows[|rows| - 1]
    ensures multiset(Keys(rows))[Key(id, system)] == multiset(IdsFor(rows, system))[id]
    decreases |rows|, 0
  {
    hide Keys, IdsFor;
    KeyCounts(front, id, system);
    LastRow(rows, system);
    CountAppended(Keys(front), KeyOf(last), Key(id, system));
    CountAppended(IdsFor(front, system), last.id, id);
  }

  lemma GridRowCounts(id: Id, key: Key)
    ensures multiset(GridRow(id))[key] == if key.id == id then 1 else 0
  {
    var keys := GridRow(id);
    forall i, j | 0 <= i < j < 8 ensures keys[i] != keys[j] {
      assert Rank(SystemAt(i)) != Rank(SystemAt(j));
    }
    CountOfDistinct(keys, key);
    assert SystemAt(Rank(key.system)) == key.system;
    assert keys[Rank(key.system)] == Key(id, key.system);
  }

  lemma {:induction false} GridCounts(ids: seq<Id>, key: Key)
    ensures multiset(Grid(ids))[key] == multiset(ids)[key.id]
    ensures |Grid(ids)| == 8 * |ids|
  {
    if ids != [] {
      var n := |ids| - 1;
      GridCounts(ids[..n], key);
      GridRowCounts(ids[n], key);
      assert ids == ids[..n] + [ids[n]];
    }
  }

  ghost predicate SystemComplete(ids: seq<Id>, rows: seq<Row>, system: System) {
    SetOf(IdsFor(rows, system)) == SetOf(ids) && NoRepeats(IdsFor(rows, system))
  }

  // What `evaluate_ablation` demands of the rows.
  ghost predicate AblationComplete(ids: seq<Id>, rows: seq<Row>) {
    forall system {:trigger IdsFor(rows, system)} :: SystemComplete(ids, rows, system)
  }

  // With the row count right, the checks pass exactly when every pair of case and system occurs once.
  lemma RowCheckIff(ids: seq<Id>, rows: seq<Row>)
    ensures |rows| == 8 * |ids| && AblationComplete(ids, rows) <==>
            NoRepeats(ids) && multiset(Keys(rows)) == multiset(Grid(ids))
  {
    if |rows| == 8 * |ids| && AblationComplete(ids, rows) {
      CompleteRowsAreGrid(ids, rows);
    }
    if NoRepeats(ids) && multiset(Keys(rows)) == multiset(Grid(ids)) {
      GridRowsAreComplete(ids, rows);
    }
  }

  lemma CompleteRowsAreGrid(ids: seq<Id>, rows: seq<Row>)
    requires |rows| == 8 * |ids| && AblationComplete(ids, rows)
    ensures NoRepeats(ids) && multiset(Keys(rows)) == multiset(Grid(ids))
  {
    var known := Distinct(ids);
    forall key: Key ensures multiset(Keys(rows))[key] == multiset(Grid(known))[key] {
      KeyCounts(rows, key.id, key.system);
      GridCounts(known, key);
      assert SystemComplete(ids, rows, key.system);
      CountOfDistinct(IdsFor(rows, key.system), key.id);
      CountOfDistinct(known, key.id);
      assert key.id in IdsFor(rows, key.system) <==> key.id in SetOf(IdsFor(rows, key.system));
      assert key.id in ids <==> key.id in SetOf(ids);
    }
    assert multiset(Keys(rows)) == multiset(Grid(known));
    assert |multiset(Keys(rows))| == |rows| && |multiset(Grid(known))| == |Grid(known)|;
    GridCounts(known, Key("", FlatLexical));
    DistinctLength(ids);
  }

  lemma GridRowsAreComplete(ids: seq<Id>, rows: seq<Row>)
    requires NoRepeats(ids) && multiset(Keys(rows)) == multiset(Grid(ids))
    ensures |rows| == 8 * |ids| && AblationComplete(ids, rows)
  {
    hide Grid, IdsFor, NoRepeats, SystemComplete;
    SameSize(Keys(rows), Grid(ids));
    GridCounts(ids, Key("", FlatLexical));
    forall system ensures SystemComplete(ids, rows, system) {
      SystemOfGrid(ids, rows, system);
    }
  }

  lemma SystemOfGrid(ids: seq<Id>, rows: seq<Row>, system: System)
    requires NoRepeats(ids) && multiset(Keys(rows)) == multiset(Grid(ids))
    ensures SystemComplete(ids, rows, system)
  {
    hide Keys, Grid, IdsFor, NoRepeats;
    var mine := IdsFor(rows, system);
    forall id ensures multiset(mine)[id] == multiset(ids)[id] {
      KeyCounts(rows, id, system);
      GridCounts(ids, Key(id, system));
    }
    assert multiset(mine) == multiset(ids);
    RearrangedNoRepeats(ids, mine);
    SameMembers(mine, ids);
  }

  lemma SameMembers(a: seq<Id>, b: seq<Id>)
    requires multiset(a) == multiset(b)
    ensures SetOf(a) == SetOf(b)
  {
    forall id ensures id in a <==> id in b {
      assert id in a <==> id in multiset(a);
      assert id in b <==> id in multiset(b);
    }
  }

  // `evaluate_ablation` as far as it can refuse the rows.
  method CheckAblation(ids: seq<Id>, rows: seq<Row>) returns (ok: bool)
    ensures ok <==> AblationComplete(ids, rows)
  {
    var known := SetOf(ids);
    for k := 0 to |rows|
      invariant forall i | 0 <= i < k :: rows[i].id in known
    {
      if rows[k].id !in known {
        UnknownRow(ids, rows, k);
        return false;
      }
    }
    for k := 0 to 8
      invariant forall i: nat {:trigger SystemAt(i)} | i < k :: SetOf(IdsFor(rows, SystemAt(i))) == known
    {
      if SetOf(IdsFor(rows, SystemAt(k))) != known {
        assert !SystemComplete(ids, rows, SystemAt(k));
        return false;
      }
    }
    for k := 0 to 8
      invariant forall i: nat {:trigger SystemAt(i)} | i < k :: NoRepeats(IdsFor(rows, SystemAt(i)))
    {
      var mine := IdsFor(rows, SystemAt(k));
      if |mine| != |SetOf(mine)| {
        if NoRepeats(mine) {
          DistinctSize(mine);
        }
        assert !SystemComplete(ids, rows, SystemAt(k));
        return false;
      }
      FullSetNoRepeats(mine);
    }
    forall system ensures SystemComplete(ids, rows, system) {
      assert SystemAt(Rank(system)) == system;
    }
    return true;
  }

  lemma {:induction false} IdsForHolds(rows: seq<Row>, k: nat)
    requires k < |rows|
    ensures rows[k].id in IdsFor(rows, rows[k].system)
  {
    var n := |rows| - 1;
    if k < n { IdsForHolds(rows[..n], k); }
  }

  lemma UnknownRow(ids: seq<Id>, rows: seq<Row>, k: nat)
    requires k < |rows| && rows[k].id !in SetOf(ids)
    ensures !AblationComplete(ids, rows)
  {
    IdsForHolds(rows, k);
    assert rows[k].id in SetOf(IdsFor(rows, rows[k].system));
    assert !SystemComplete(ids, rows, rows[k].system);
  }

  // ----- the merge

  // The place of every case id; a repeated id keeps its last place.
  function CaseOrder(ids: seq<Id>): map<Id, nat> {
    if ids == [] then map[] else CaseOrder(ids[..|ids| - 1])[ids[|ids| - 1] := |ids| - 1]
  }

  function Place(order: map<Id, nat>, id: Id): nat { if id in order then order[id] else 0 }

  predicate KeyLe(order: map<Id, nat>, x: Key, y: Key) {
    Place(order, x.id) < Place(order, y.id) || (Place(order, x.id) == Place(order, y.id) &&
      Rank(x.system) <= Rank(y.system))
  }

  lemma {:induction false} CaseOrderPlaces(ids: seq<Id>, k: nat)
    requires NoRepeats(ids) && k < |ids|
    ensures ids[k] in CaseOrder(ids) && CaseOrder(ids)[ids[k]] == k
  {
    if k < |ids| - 1 { CaseOrderPlaces(ids[..|ids| - 1], k); }
  }

  lemma {:induction false} GridMember(ids: seq<Id>, n: nat, k: nat)
    requires n <= |ids| && k < |Grid(ids[..n])|
    ensures Grid(ids[..n])[k].id in ids[..n]
  {
    if n > 0 {
      var m := n - 1;
      assert ids[..n][..m] == ids[..m];
      if k < |Grid(ids[..m])| {
        GridMember(ids, m, k);
      } else {
        assert Grid(ids[..n])[k] == GridRow(ids[m])[k - |Grid(ids[..m])|];
        assert ids[..n][m] == ids[m];
      }
    }
  }

  // The grid is in the merge's order, whose ties are equalities.
  lemma {:induction false} GridOrdered(ids: seq<Id>, n: nat)
    requires NoRepeats(ids) && n <= |ids|
    ensures Ordered(Grid(ids[..n]), (x, y) => KeyLe(CaseOrder(ids), x, y))
  {
    if n > 0 {
      var m := n - 1;
      GridOrdered(ids, m);
      assert ids[..n][..m] == ids[..m];
      var front, last, order := Grid(ids[..m]), GridRow(ids[m]), CaseOrder(ids);
      CaseOrderPlaces(ids, m);
      forall i | 0 <= i < |front| ensures Place(order, front[i].id) < m {
        GridMember(ids, m, i);
        var k :| 0 <= k < m && ids[..m][k] == front[i].id;
        CaseOrderPlaces(ids, k);
      }
      BlocksOrdered(front, last, order, m);
    }
  }

  lemma BlocksOrdered(front: seq<Key>, last: seq<Key>, order: map<Id, nat>, m: nat)
    requires Ordered(front, (x, y) => KeyLe(order, x, y))
    requires forall i | 0 <= i < |front| :: Place(order, front[i].id) < m
    requires |last| == 8 && forall i | 0 <= i < 8 :: Place(order, last[i].id) == m && Rank(last[i].system) == i
    ensures Ordered(front + last, (x, y) => KeyLe(order, x, y))
  {
    var all, le := front + last, (x, y) => KeyLe(order, x, y);
    forall i, j | 0 <= i < j < |all| ensures KeyLe(order, all[i], all[j]) {
      if j < |front| {
        assert le(front[i], front[j]);
      } else if i < |front| {
        assert all[j] == last[j - |front|];
      } else {
        assert all[i] == last[i - |front|] && all[j] == last[j - |front|];
      }
    }
  }

  lemma GridNoTies(ids: seq<Id>)
    requires NoRepeats(ids)
    ensures NoTies(Grid(ids), (x, y) => KeyLe(CaseOrder(ids), x, y))
  {
    var grid, order := Grid(ids), CaseOrder(ids);
    assert ids[..|ids|] == ids;
    forall i, j | 0 <= i < |grid| && 0 <= j < |grid| && KeyLe(order, grid[i], grid[j]) && KeyLe(order, grid[j], grid[i])
      ensures grid[i] == grid[j]
    {
      GridMember(ids, |ids|, i);
      GridMember(ids, |ids|, j);
      var k :| 0 <= k < |ids| && ids[k] == grid[i].id;
      var l :| 0 <= l < |ids| && ids[l] == grid[j].id;
      CaseOrderPlaces(ids, k);
      CaseOrderPlaces(ids, l);
      assert SystemAt(Rank(grid[i].system)) == grid[i].system;
      assert SystemAt(Rank(grid[j].system)) == grid[j].system;
    }
  }

  // The reports are those of a whole family of shards over one pack.
  ghost predicate WholeFamily(reports: seq<Report>, benchmarkHash: string) {
    && |reports| >= 2
    && (forall k | 0 <= k < |reports| :: GoodReport(reports[k], benchmarkHash))
    && (forall k | 0 <= k < |reports| :: reports[k].stride.value.count == |reports|)
    && (forall k | 0 <= k < |reports| :: reports[k].packHash == reports[0].packHash)
    && multiset(Indices(reports)) == multiset(Range(|reports|))
  }

  // Every case in every system, once.
  ghost predicate WholeGrid(cases: seq<Case>, rows: seq<Row>) {
    NoRepeats(Ids(cases)) && multiset(Keys(rows)) == multiset(Grid(Ids(cases)))
  }

  predicate RowLe(order: map<Id, nat>, x: Row, y: Row) { KeyLe(order, KeyOf(x), KeyOf(y)) }

  function MergedRows(cases: seq<Case>, rows: seq<Row>): seq<Row> {
    var order := CaseOrder(Ids(cases));
    Sort(rows, (x, y) => RowLe(order, x, y))
  }

  lemma RowLeIsTotalPreorder(order: map<Id, nat>)
    ensures TotalPreorder((x, y) => RowLe(order, x, y))
  {
  }

  // Sorted, the rows of a whole grid are the grid.
  lemma MergedRowsAreGrid(cases: seq<Case>, rows: seq<Row>)
    requires NoRepeats(Ids(cases)) && multiset(Keys(rows)) == multiset(Grid(Ids(cases)))
    ensures Keys(MergedRows(cases, rows)) == Grid(Ids(cases))
    ensures multiset(MergedRows(cases, rows)) == multiset(rows)
  {
    var ids := Ids(cases);
    var order, merged := CaseOrder(ids), MergedRows(cases, rows);
    var le: (Key, Key) -> bool := (x, y) => KeyLe(order, x, y);
    RowLeIsTotalPreorder(order);
    SortOrdered(rows, (x, y) => RowLe(order, x, y));
    forall i, j | 0 <= i < j < |merged| ensures le(Keys(merged)[i], Keys(merged)[j]) {
      assert RowLe(order, merged[i], merged[j]);
    }
    MapPermute(KeyOf, merged, rows);
    assert ids[..|ids|] == ids;
    GridOrdered(ids, |ids|);
    GridNoTies(ids);
    OrderedUnique(Grid(ids), Keys(merged), le);
  }

  // The checks on the reports, before any row is read.
  method CheckReports(reports: seq<Report>, benchmarkHash: string) returns (ok: bool)
    requires |reports| >= 2
    ensures ok <==> WholeFamily(reports, benchmarkHash)
  {
    for k := 0 to |reports|
      invariant forall i | 0 <= i < k :: GoodReport(reports[i], benchmarkHash)
    {
      if !GoodReport(reports[k], benchmarkHash) {
        return false;
      }
    }
    var count := reports[0].stride.value.count;
    for k := 0 to |reports|
      invariant forall i | 0 <= i < k :: reports[i].stride.value.count == count
    {
      if reports[k].stride.value.count != count {
        return false;
      }
    }
    IndexCheckIff(Indices(reports), count);
    if |reports| != count || SetOf(Indices(reports)) != SetOf(Range(count)) {
      return false;
    }
    for k := 0 to |reports|
      invariant forall i | 0 <= i < k :: reports[i].packHash == reports[0].packHash
    {
      if reports[k].packHash != reports[0].packHash {
        return false;
      }
    }
    return true;
  }

  ghost predicate HasIndex(reports: seq<Report>, i: int) {
    exists k :: 0 <= k < |reports| && reports[k].stride.Some? && reports[k].stride.value.index == i
  }

  // Unfinished reports of the corrected qualification over this benchmark and one verified pack, which count each
  // other and have every index among them.
  ghost predicate Trusted(reports: seq<Report>, benchmarkHash: string) {
    && (forall k | 0 <= k < |reports| ::
          && reports[k].qualification == "AETHERSPARSE_V050_SQLITE_CONTROLLER_QUALIFICATION_R2"
          && !reports[k].complete && reports[k].benchmarkHash == benchmarkHash && reports[k].packVerified
          && reports[k].packHash == reports[0].packHash
          && reports[k].stride.Some? && reports[k].stride.value.count == |reports|)
    && (forall i: int | 0 <= i < |reports| :: HasIndex(reports, i))
  }

  lemma FamilyIsTrusted(reports: seq<Report>, benchmarkHash: string)
    ensures WholeFamily(reports, benchmarkHash) <==> |reports| >= 2 && Trusted(reports, benchmarkHash)
  {
    var n := |reports|;
    if WholeFamily(reports, benchmarkHash) {
      assert forall k | 0 <= k < n :: GoodReport(reports[k], benchmarkHash);
      forall i: int | 0 <= i < n ensures HasIndex(reports, i) {
        MemberOfEqualMultisets(Range(n), Indices(reports), i);
        var k :| 0 <= k < n && Indices(reports)[k] == i;
      }
    }
    if n >= 2 && Trusted(reports, benchmarkHash) {
      forall i: int | 0 <= i < n ensures i in Indices(reports) {
        assert HasIndex(reports, i);
        var k :| 0 <= k < n && reports[k].stride.Some? && reports[k].stride.value.index == i;
        assert Indices(reports)[k] == i;
      }
      EveryIndexOnce(Indices(reports), n);
    }
  }

  lemma EveryIndexOnce(indices: seq<int>, n: nat)
    requires |indices| == n && forall i: int | 0 <= i < n :: i in indices
    ensures multiset(indices) == multiset(Range(n))
  {
    DistinctSize(Range(n));
    DistinctCount(indices);
    DistinctLength(indices);
    var all, wanted := SetOf(indices), SetOf(Range(n));
    assert wanted <= all;
    SubsetOfSize(wanted, all);
    IndexCheckIff(indices, n);
  }

  lemma SubsetOfSize<T>(small: set<T>, big: set<T>)
    requires small <= big && |big| <= |small|
    ensures small == big
  {
    assert big == small + (big - small) && |big| == |small| + |big - small|;
  }

  // The rows of a case follow each other in the order of the systems, case after case.
  ghost predicate InGridOrder(cases: seq<Case>, rows: seq<Row>) {
    && |rows| == 8 * |cases|
    && forall i: nat, s: nat | i < |cases| && s < 8 :: KeyOf(rows[8 * i + s]) == Key(cases[i].id, SystemAt(s))
  }

  lemma GridPrefix(ids: seq<Id>)
    ensures |Grid(ids)| == 8 * |ids|
  {
    GridCounts(ids, Key("", FlatLexical));
  }

  lemma {:induction false} GridAt(ids: seq<Id>, i: nat, s: nat)
    requires i < |ids| && s < 8
    ensures 8 * i + s < |Grid(ids)| && Grid(ids)[8 * i + s] == Key(ids[i], SystemAt(s))
    decreases |ids|
  {
    var n := |ids| - 1;
    GridPrefix(ids);
    GridPrefix(ids[..n]);
    if i < n { GridAt(ids[..n], i, s); }
  }

  lemma KeysOfGrid(cases: seq<Case>, rows: seq<Row>)
    requires Keys(rows) == Grid(Ids(cases))
    ensures InGridOrder(cases, rows)
  {
    hide Grid;
    GridPrefix(Ids(cases));
    forall i: nat, s: nat | i < |cases| && s < 8
      ensures KeyOf(rows[8 * i + s]) == Key(cases[i].id, SystemAt(s))
    {
      GridAt(Ids(cases), i, s);
    }
  }

  // The merge refuses everything but as many row files as reports, the reports of a whole family and the rows of
  // a whole grid, and puts those rows in benchmark order.
  method Merge(cases: seq<Case>, benchmarkHash: string, reports: seq<Report>, files: seq<seq<Row>>)
    returns (ordered: Result<seq<Row>>)
    ensures ordered.Ok? <==>
      |files| == |reports| && WholeFamily(reports, benchmarkHash) && WholeGrid(cases, Flatten(files))
    ensures ordered.Ok? ==> ordered.value == MergedRows(cases, Flatten(files))
    ensures ordered.Ok? ==> Keys(ordered.value) == Grid(Ids(cases))
    ensures ordered.Ok? ==> multiset(ordered.value) == multiset(Flatten(files))
    ensures ordered.Ok? ==> Trusted(reports, benchmarkHash) && InGridOrder(cases, ordered.value)
    ensures ordered.Raised? <==>
      |reports| < 2 || |files| != |reports| || !Trusted(reports, benchmarkHash) || !WholeGrid(cases, Flatten(files))
  {
    hide Trusted, InGridOrder, MergedRows;
    FamilyIsTrusted(reports, benchmarkHash);
    if |reports| < 2 || |reports| != |files| {
      return Raised;
    }
    var family := CheckReports(reports, benchmarkHash);
    if !family {
      return Raised;
    }
    var rows: seq<Row> := [];
    for k := 0 to |files|
      invariant rows == Flatten(files[..k])
    {
      assert files[..k + 1][..k] == files[..k];
      rows := rows + files[k];
    }
    assert files[..|files|] == files;
    RowCheckIff(Ids(cases), rows);
    if |rows| != |cases| * 8 {
      return Raised;
    }
    var complete := CheckAblation(Ids(cases), rows);
    if !complete {
      return Raised;
    }
    MergedRowsAreGrid(cases, rows);
    KeysOfGrid(cases, MergedRows(cases, rows));
    return Ok(MergedRows(cases, rows));
  }

  // ----- the shards of a run restore it

  function ShardReport(index: int, count: int, benchmarkHash: string, packHash: string): Report {
    Report(QUALIFICATION, false, benchmarkHash, true, packHash, Some(Stride(index, count)))
  }

  // The reports and the row files that `count` strided runs leave.
  ghost function FamilyReports(count: nat, benchmarkHash: string, packHash: string): (family: seq<Report>)
    ensures |family| == count
    ensures forall i | 0 <= i < count :: family[i] == ShardReport(i, count, benchmarkHash, packHash)
  {
    seq(count, i requires 0 <= i < count => ShardReport(i, count, benchmarkHash, packHash))
  }

  ghost function FamilyFiles(cases: seq<Case>, count: nat, outcomes: Outcomes): (family: seq<seq<Row>>)
    requires count > 0
    ensures |family| == count
    ensures forall i | 0 <= i < count :: family[i] == RowsOf(Strided(cases, i, count), outcomes)
  {
    seq(count, i requires 0 <= i < count => RowsOf(Strided(cases, i, count), outcomes))
  }

  lemma FamilyRows(cases: seq<Case>, count: nat, outcomes: Outcomes)
    requires count > 0
    ensures multiset(Flatten(FamilyFiles(cases, count, outcomes))) == multiset(RowsOf(cases, outcomes))
  {
    var parts := StrideFamily(cases, count);
    assert FamilyFiles(cases, count, outcomes) == Map(part => RowsOf(part, outcomes), parts);
    RowsOfParts(parts, outcomes);
    StridesPartition(cases, count);
    RowsPermute(Flatten(parts), cases, outcomes);
  }

  lemma {:induction false} RowsHaveGridKeys(cases: seq<Case>, outcomes: Outcomes)
    ensures Keys(RowsOf(cases, outcomes)) == Grid(Ids(cases))
  {
    if cases != [] {
      var n := |cases| - 1;
      RowsHaveGridKeys(cases[..n], outcomes);
      assert Ids(cases)[..n] == Ids(cases[..n]);
      assert Keys(RowsOfCase(cases[n], outcomes)) == GridRow(cases[n].id);
      assert Keys(RowsOf(cases, outcomes)) == Keys(RowsOf(cases[..n], outcomes)) + Keys(RowsOfCase(cases[n], outcomes));
    }
  }

  // The reports of every complete family, in any order, are accepted.
  lemma FamilyIsWhole(count: nat, benchmarkHash: string, packHash: string, reports: seq<Report>)
    requires count >= 2 && multiset(reports) == multiset(FamilyReports(count, benchmarkHash, packHash))
    ensures WholeFamily(reports, benchmarkHash)
  {
    var family := FamilyReports(count, benchmarkHash, packHash);
    assert |multiset(reports)| == |reports| && |multiset(family)| == |family|;
    forall k | 0 <= k < |reports|
      ensures GoodReport(reports[k], benchmarkHash) && reports[k].stride.value.count == count
      ensures reports[k].packHash == packHash
    {
      MemberOfEqualMultisets(reports, family, k);
    }
    MapPermute(IndexOf, reports, family);
    assert Map(IndexOf, reports) == Indices(reports);
    assert Map(IndexOf, family) == Range(count);
  }

  // The row files of every complete family, in any order, hold the rows of the run.
  lemma FamilyFilesAreGrid(cases: seq<Case>, count: nat, outcomes: Outcomes, files: seq<seq<Row>>)
    requires count >= 2 && NoRepeats(Ids(cases)) && multiset(files) == multiset(FamilyFiles(cases, count, outcomes))
    ensures WholeGrid(cases, Flatten(files)) && multiset(Flatten(files)) == multiset(RowsOf(cases, outcomes))
    ensures |files| == count
  {
    var family := FamilyFiles(cases, count, outcomes);
    assert |multiset(files)| == |files| && |multiset(family)| == |family|;
    FlattenPermute(files, family);
    FamilyRows(cases, count, outcomes);
    MapPermute(KeyOf, Flatten(files), RowsOf(cases, outcomes));
    RowsHaveGridKeys(cases, outcomes);
  }

  // Sorting any arrangement of a run's rows restores the run.
  lemma RunIsRestored(cases: seq<Case>, outcomes: Outcomes, rows: seq<Row>)
    requires NoRepeats(Ids(cases)) && multiset(rows) == multiset(RowsOf(cases, outcomes))
    ensures MergedRows(cases, rows) == RowsOf(cases, outcomes)
  {
    var run, ids := RowsOf(cases, outcomes), Ids(cases);
    var order := CaseOrder(ids);
    var le: (Row, Row) -> bool := (x, y) => RowLe(order, x, y);
    RowsHaveGridKeys(cases, outcomes);
    assert ids[..|ids|] == ids;
    GridOrdered(ids, |ids|);
    GridNoTies(ids);
    forall i, j | 0 <= i < j < |run| ensures le(run[i], run[j]) {
      assert KeyLe(order, Grid(ids)[i], Grid(ids)[j]);
    }
    forall i, j | 0 <= i < |run| && 0 <= j < |run| && le(run[i], run[j]) && le(run[j], run[i])
      ensures run[i] == run[j]
    {
      assert KeyLe(order, Grid(ids)[i], Grid(ids)[j]);
      assert Grid(ids)[i] == Grid(ids)[j];
      SameKeySameRow(cases, outcomes, i, j);
    }
    RowLeIsTotalPreorder(order);
    SortUnique(run, rows, le);
    SortFixed(run, le);
  }

  ghost predicate IsRowOf(cases: seq<Case>, outcomes: Outcomes, row: Row, k: nat) {
    k < |cases| && row == Row(cases[k].id, row.system, outcomes(cases[k], row.system))
  }

  lemma {:induction false} RowComesFrom(cases: seq<Case>, outcomes: Outcomes, i: nat) returns (k: nat)
    requires i < |RowsOf(cases, outcomes)|
    ensures IsRowOf(cases, outcomes, RowsOf(cases, outcomes)[i], k)
  {
    var n := |cases| - 1;
    var front := RowsOf(cases[..n], outcomes);
    if i < |front| {
      k := RowComesFrom(cases[..n], outcomes, i);
    } else {
      k := n;
      assert RowsOf(cases, outcomes)[i] == RowsOfCase(cases[n], outcomes)[i - |front|];
    }
  }

  lemma SameKeySameRow(cases: seq<Case>, outcomes: Outcomes, i: nat, j: nat)
    requires NoRepeats(Ids(cases)) && i < |RowsOf(cases, outcomes)| && j < |RowsOf(cases, outcomes)|
    requires KeyOf(RowsOf(cases, outcomes)[i]) == KeyOf(RowsOf(cases, outcomes)[j])
    ensures RowsOf(cases, outcomes)[i] == RowsOf(cases, outcomes)[j]
  {
    var k := RowComesFrom(cases, outcomes, i);
    var l := RowComesFrom(cases, outcomes, j);
    assert Ids(cases)[k] == Ids(cases)[l];
    assert k == l;
  }

  // Whatever the number of shards and the orders in which reports and row files are handed over, merging them
  // gives the rows of the unsharded run.
  method MergeFamily(cases: seq<Case>, benchmarkHash: string, ghost packHash: string, ghost count: nat,
                     ghost outcomes: Outcomes, reports: seq<Report>, files: seq<seq<Row>>)
    returns (ordered: Result<seq<Row>>)
    requires count >= 2 && NoRepeats(Ids(cases))
    requires multiset(reports) == multiset(FamilyReports(count, benchmarkHash, packHash))
    requires multiset(files) == multiset(FamilyFiles(cases, count, outcomes))
    ensures ordered == Ok(RowsOf(cases, outcomes))
  {
    FamilyIsWhole(count, benchmarkHash, packHash, reports);
    FamilyFilesAreGrid(cases, count, outcomes, files);
    assert |multiset(reports)| == |reports|;
    RunIsRestored(cases, outcomes, Flatten(files));
    ordered := Merge(cases, benchmarkHash, reports, files);
  }

  // A qualification in `count` shards: run by run, then merged. It raises exactly when the unsharded run does, and
  // otherwise gives its rows.
  method QualifyInShards(cases: seq<Case>, benchmarkHash: string, packHash: string, count: nat, evidenceLimit: int,
                         link: Linker, complete: Completion)
    returns (ordered: Result<seq<Row>>)
    requires count >= 2 && NoRepeats(Ids(cases))
    ensures ordered.Raised? <==> !(1 <= evidenceLimit <= 64) || Unreplayable(cases)
    ensures ordered.Ok? ==> ordered.value == RowsOf(cases, BenchmarkOutcomes(cases, link, complete))
  {
    var reports: seq<Report>, files: seq<seq<Row>> := [], [];
    ghost var outcomes := BenchmarkOutcomes(cases, link, complete);
    for index := 0 to count
      invariant index > 0 ==> 1 <= evidenceLimit <= 64 && !Unreplayable(cases)
      invariant reports == FamilyReports(count, benchmarkHash, packHash)[..index]
      invariant files == FamilyFiles(cases, count, outcomes)[..index]
    {
      var rows := Run(cases, evidenceLimit, None, Some(Stride(index, count)), link, complete);
      if rows.Raised? {
        return Raised;
      }
      reports := reports + [ShardReport(index, count, benchmarkHash, packHash)];
      files := files + [rows.value];
    }
    assert FamilyReports(count, benchmarkHash, packHash)[..count] == FamilyReports(count, benchmarkHash, packHash);
    assert FamilyFiles(cases, count, outcomes)[..count] == FamilyFiles(cases, count, outcomes);
    ordered := MergeFamily(cases, benchmarkHash, packHash, count, outcomes, reports, files);
  }
}
