// Largest-first greedy balancing of conversations over workers, and how far its
// fullest shard can be from the best possible assignment.
module Balance {

  // `shards[q]` receives item k exactly when `assign[k] == q`.
  ghost predicate IsAssignment(assign: seq<nat>, items: nat, shards: nat) {
    |assign| == items && forall k | 0 <= k < items :: assign[k] < shards
  }

  function Load(sizes: seq<nat>, assign: seq<nat>, shard: nat): nat
    requires |sizes| == |assign|
  {
    if sizes == [] then 0
    else
      var n := |sizes| - 1;
      Load(sizes[..n], assign[..n], shard) + if assign[n] == shard then sizes[n] else 0
  }

  function Loads(sizes: seq<nat>, assign: seq<nat>, shards: nat): (loads: seq<nat>)
    requires |sizes| == |assign|
    ensures |loads| == shards
    ensures forall q | 0 <= q < shards :: loads[q] == Load(sizes, assign, q)
  {
    seq(shards, q requires 0 <= q < shards => Load(sizes, assign, q))
  }

  function Total(sizes: seq<nat>): nat {
    if sizes == [] then 0 else Total(sizes[..|sizes| - 1]) + sizes[|sizes| - 1]
  }

  // The first of the least loaded shards.
  function FirstLeast(loads: seq<nat>): (k: nat)
    requires loads != []
    ensures k < |loads|
    ensures forall q | 0 <= q < |loads| :: loads[k] <= loads[q]
    ensures forall q | 0 <= q < k :: loads[k] < loads[q]
  {
    if |loads| == 1 then 0
    else
      var k := FirstLeast(loads[..|loads| - 1]);
      if loads[|loads| - 1] < loads[k] then |loads| - 1 else k
  }

  // Every item in turn goes to the first least loaded shard.
  function Greedy(sizes: seq<nat>, shards: nat): (assign: seq<nat>)
    requires shards > 0
    ensures IsAssignment(assign, |sizes|, shards)
  {
    if sizes == [] then []
    else
      var n := |sizes| - 1;
      var before := Greedy(sizes[..n], shards);
      before + [FirstLeast(Loads(sizes[..n], before, shards))]
  }

  ghost predicate Descending(sizes: seq<nat>) {
    forall i, j | 0 <= i < j < |sizes| :: sizes[i] >= sizes[j]
  }

  // Every shard of the assignment carries at most `cap`.
  ghost predicate Fits(sizes: seq<nat>, assign: seq<nat>, shards: nat, cap: nat) {
    && IsAssignment(assign, |sizes|, shards)
    && forall q | 0 <= q < shards :: Load(sizes, assign, q) <= cap
  }

  // ----- sums over shards

  function Sum(s: seq<nat>): nat {
    if s == [] then 0 else Sum(s[..|s| - 1]) + s[|s| - 1]
  }

  lemma {:induction false} SumUpdate(s: seq<nat>, k: nat, x: nat)
    requires k < |s|
    ensures Sum(s[k := x]) + s[k] == Sum(s) + x
  {
    var n := |s| - 1;
    if k < n {
      SumUpdate(s[..n], k, x);
      assert s[k := x][..n] == s[..n][k := x];
    } else {
      assert s[k := x][..n] == s[..n];
    }
  }

  lemma {:induction false} SumZero(s: seq<nat>)
    requires forall k | 0 <= k < |s| :: s[k] == 0
    ensures Sum(s) == 0
  {
    if s != [] { SumZero(s[..|s| - 1]); }
  }

  lemma {:induction false} SumAtLeast(s: seq<nat>, low: nat)
    requires forall k | 0 <= k < |s| :: low <= s[k]
    ensures |s| * low <= Sum(s)
  {
    if s != [] { SumAtLeast(s[..|s| - 1], low); }
  }

  lemma {:induction false} SumAtMost(s: seq<nat>, high: nat)
    requires forall k | 0 <= k < |s| :: s[k] <= high
    ensures Sum(s) <= |s| * high
  {
    if s != [] { SumAtMost(s[..|s| - 1], high); }
  }

  lemma LoadsStep(sizes: seq<nat>, assign: seq<nat>, shards: nat)
    requires sizes != [] && IsAssignment(assign, |sizes|, shards)
    ensures var n := |sizes| - 1;
            var before := Loads(sizes[..n], assign[..n], shards);
            Loads(sizes, assign, shards) == before[assign[n] := before[assign[n]] + sizes[n]]
  {
  }

  // Nothing is lost or counted twice: the loads add up to the total.
  lemma {:induction false} LoadsConserve(sizes: seq<nat>, assign: seq<nat>, shards: nat)
    requires IsAssignment(assign, |sizes|, shards)
    ensures Sum(Loads(sizes, assign, shards)) == Total(sizes)
  {
    if sizes == [] {
      SumZero(Loads(sizes, assign, shards));
    } else {
      var n := |sizes| - 1;
      LoadsConserve(sizes[..n], assign[..n], shards);
      LoadsStep(sizes, assign, shards);
      var before := Loads(sizes[..n], assign[..n], shards);
      SumUpdate(before, assign[n], before[assign[n]] + sizes[n]);
    }
  }

  lemma LeastBelowAverage(sizes: seq<nat>, shards: nat)
    requires shards > 0
    ensures var loads := Loads(sizes, Greedy(sizes, shards), shards);
            shards * loads[FirstLeast(loads)] <= Total(sizes)
  {
    var loads := Loads(sizes, Greedy(sizes, shards), shards);
    LoadsConserve(sizes, Greedy(sizes, shards), shards);
    SumAtLeast(loads, loads[FirstLeast(loads)]);
  }

  lemma GreedyStep(sizes: seq<nat>, shards: nat, q: nat)
    requires sizes != [] && q < shards
    ensures var n := |sizes| - 1;
            var before := Greedy(sizes[..n], shards);
            var loads := Loads(sizes[..n], before, shards);
            Load(sizes, Greedy(sizes, shards), q)
              == loads[q] + if q == FirstLeast(loads) then sizes[n] else 0
  {
    var n := |sizes| - 1;
    assert Greedy(sizes, shards)[..n] == Greedy(sizes[..n], shards);
  }

  // In any order of the items: shards * makespan <= total + (shards - 1) * largest.
  lemma {:induction false} GreedyMakespan(sizes: seq<nat>, shards: nat, largest: nat, q: nat)
    requires q < shards
    requires forall k | 0 <= k < |sizes| :: sizes[k] <= largest
    ensures shards * Load(sizes, Greedy(sizes, shards), q) <= Total(sizes) + (shards - 1) * largest
  {
    if sizes == [] {
      assert Load(sizes, Greedy(sizes, shards), q) == 0;
      assert 0 <= (shards - 1) * largest;
    } else {
      var n := |sizes| - 1;
      GreedyMakespan(sizes[..n], shards, largest, q);
      GreedyStep(sizes, shards, q);
      LeastBelowAverage(sizes[..n], shards);
      SpreadArithmetic(shards, Load(sizes[..n], Greedy(sizes[..n], shards), q),
                       Load(sizes, Greedy(sizes, shards), q), sizes[n], Total(sizes[..n]), largest);
    }
  }

  lemma SpreadArithmetic(shards: nat, before: nat, load: nat, size: nat, total: nat, largest: nat)
    requires shards > 0 && size <= largest
    requires load == before || (load == before + size && shards * before <= total)
    requires shards * before <= total + (shards - 1) * largest
    ensures shards * load <= total + size + (shards - 1) * largest
  {
    MulAdd(shards, before, size);
    MulAdd(size, shards - 1, 1);
    MulMono(shards - 1, size, largest);
  }

  lemma MulAdd(a: int, b: int, c: int)
    ensures a * (b + c) == a * b + a * c
  {
  }

  lemma MulMono(a: nat, b: int, c: int)
    requires b <= c
    ensures a * b <= a * c
  {
  }

  // ----- how many items sit in one shard

  function Count(assign: seq<nat>, shard: nat): nat {
    if assign == [] then 0
    else Count(assign[..|assign| - 1], shard) + if assign[|assign| - 1] == shard then 1 else 0
  }

  function Counts(assign: seq<nat>, shards: nat): (counts: seq<nat>)
    ensures |counts| == shards
    ensures forall q | 0 <= q < shards :: counts[q] == Count(assign, q)
  {
    seq(shards, q requires 0 <= q < shards => Count(assign, q))
  }

  lemma {:induction false} CountsConserve(assign: seq<nat>, shards: nat)
    requires IsAssignment(assign, |assign|, shards)
    ensures Sum(Counts(assign, shards)) == |assign|
  {
    if assign == [] {
      SumZero(Counts(assign, shards));
    } else {
      var n := |assign| - 1;
      CountsConserve(assign[..n], shards);
      var before := Counts(assign[..n], shards);
      SumUpdate(before, assign[n], before[assign[n]] + 1);
      assert Counts(assign, shards) == before[assign[n] := before[assign[n]] + 1];
    }
  }

  lemma {:induction false} EmptyShard(sizes: seq<nat>, assign: seq<nat>, q: nat)
    requires |sizes| == |assign| && Count(assign, q) == 0
    ensures Load(sizes, assign, q) == 0
  {
    if sizes != [] { EmptyShard(sizes[..|sizes| - 1], assign[..|sizes| - 1], q); }
  }

  lemma {:induction false} MemberInLoad(sizes: seq<nat>, assign: seq<nat>, k: nat)
    requires |sizes| == |assign| && k < |sizes|
    ensures sizes[k] <= Load(sizes, assign, assign[k])
  {
    var n := |sizes| - 1;
    if k < n { MemberInLoad(sizes[..n], assign[..n], k); }
  }

  lemma {:induction false} PairInLoad(sizes: seq<nat>, assign: seq<nat>, i: nat, j: nat)
    requires |sizes| == |assign| && i < j < |sizes| && assign[i] == assign[j]
    ensures sizes[i] + sizes[j] <= Load(sizes, assign, assign[j])
  {
    var n := |sizes| - 1;
    if j < n {
      PairInLoad(sizes[..n], assign[..n], i, j);
    } else {
      MemberInLoad(sizes[..n], assign[..n], i);
    }
  }

  // Items above a third of `cap`: three of them overfill a shard.
  lemma {:induction false} CountTimesThird(sizes: seq<nat>, assign: seq<nat>, q: nat, cap: nat)
    requires |sizes| == |assign|
    requires forall k | 0 <= k < |sizes| :: 3 * sizes[k] > cap
    ensures (cap + 1) * Count(assign, q) <= 3 * Load(sizes, assign, q)
  {
    if sizes != [] {
      var n := |sizes| - 1;
      CountTimesThird(sizes[..n], assign[..n], q, cap);
      MulAdd(cap + 1, Count(assign[..n], q), 1);
    }
  }

  // The only item of a shard holding exactly one.
  ghost function SoleItem(sizes: seq<nat>, assign: seq<nat>, q: nat): (k: nat)
    requires |sizes| == |assign| && Count(assign, q) == 1
    ensures k < |sizes| && assign[k] == q && Load(sizes, assign, q) == sizes[k]
  {
    var n := |sizes| - 1;
    if assign[n] == q then
      EmptyShard(sizes[..n], assign[..n], q);
      n
    else SoleItem(sizes[..n], assign[..n], q)
  }

  lemma {:induction false} AnotherItem(assign: seq<nat>, k: nat) returns (i: nat)
    requires k < |assign| && Count(assign, assign[k]) >= 2
    ensures i < |assign| && i != k && assign[i] == assign[k]
  {
    var n := |assign| - 1;
    if k < n {
      if assign[n] == assign[k] {
        i := n;
      } else {
        i := AnotherItem(assign[..n], k);
      }
    } else {
      i := SomeItem(assign[..n], assign[k]);
    }
  }

  lemma {:induction false} SomeItem(assign: seq<nat>, q: nat) returns (i: nat)
    requires Count(assign, q) >= 1
    ensures i < |assign| && assign[i] == q
  {
    var n := |assign| - 1;
    if assign[n] == q {
      i := n;
    } else {
      i := SomeItem(assign[..n], q);
    }
  }

  ghost function WithCount(assign: seq<nat>, shards: nat, c: nat): set<nat> {
    set q: nat | 0 <= q < shards && Count(assign, q) == c
  }

  lemma {:induction false} ManyDoubles(assign: seq<nat>, shards: nat)
    requires forall q | 0 <= q < shards :: Count(assign, q) >= 1
    ensures Sum(Counts(assign, shards)) + |WithCount(assign, shards, 1)| >= 2 * shards
  {
    if shards > 0 {
      ManyDoubles(assign, shards - 1);
      var q := shards - 1;
      assert Counts(assign, shards)[..q] == Counts(assign, q);
      assert WithCount(assign, shards, 1)
          == WithCount(assign, q, 1) + if Count(assign, q) == 1 then {q} else {};
    }
  }

  lemma {:induction false} FewDoubles(assign: seq<nat>, shards: nat, singles: set<nat>)
    requires forall q | 0 <= q < shards :: Count(assign, q) <= 2
    requires forall q | q in singles :: q < shards && Count(assign, q) <= 1
    ensures Sum(Counts(assign, shards)) + |singles| <= 2 * shards
  {
    if shards > 0 {
      var q := shards - 1;
      FewDoubles(assign, q, singles - {q});
      assert Counts(assign, shards)[..q] == Counts(assign, q);
    } else {
      assert singles == {};
    }
  }

  ghost function Image(from: set<nat>, f: map<nat, nat>): set<nat>
    requires forall q | q in from :: q in f
  {
    set q | q in from :: f[q]
  }

  lemma {:induction false} InjectionSize(from: set<nat>, f: map<nat, nat>)
    requires forall q | q in from :: q in f
    requires forall q, r | q in from && r in from && f[q] == f[r] :: q == r
    ensures |Image(from, f)| == |from|
  {
    if from != {} {
      var q :| q in from;
      InjectionSize(from - {q}, f);
      assert Image(from, f) == Image(from - {q}, f) + {f[q]};
    }
  }

  // `mine` places all items but the last, and no shard has room left for that one.
  ghost predicate Stuck(placed: seq<nat>, last: nat, mine: seq<nat>, shards: nat, cap: nat) {
    && Descending(placed + [last])
    && IsAssignment(mine, |placed|, shards)
    && forall q | 0 <= q < shards :: Load(placed, mine, q) + last > cap
  }

  // An item alone in its stuck shard shares its shard of `other` with nothing.
  lemma LonersDoNotShare(placed: seq<nat>, last: nat, mine: seq<nat>, other: seq<nat>, shards: nat, cap: nat,
                         q: nat, i: nat)
    requires Stuck(placed, last, mine, shards, cap) && Fits(placed + [last], other, shards, cap)
    requires q < shards && Count(mine, q) == 1
    requires i <= |placed| && i != SoleItem(placed, mine, q)
    ensures other[i] != other[SoleItem(placed, mine, q)]
  {
    var sizes := placed + [last];
    var k := SoleItem(placed, mine, q);
    assert sizes[i] >= sizes[|placed|] == last && sizes[k] == placed[k];
    if other[i] == other[k] {
      PairInLoad(sizes, other, if i < k then i else k, if i < k then k else i);
    }
  }

  lemma StuckShardsAreUsed(placed: seq<nat>, last: nat, mine: seq<nat>, other: seq<nat>, shards: nat, cap: nat, q: nat)
    requires Stuck(placed, last, mine, shards, cap) && Fits(placed + [last], other, shards, cap)
    requires q < shards
    ensures Count(mine, q) >= 1
  {
    if Count(mine, q) == 0 {
      EmptyShard(placed, mine, q);
      MemberInLoad(placed + [last], other, |placed|);
    }
  }

  lemma AtMostTwoBigItems(sizes: seq<nat>, other: seq<nat>, shards: nat, cap: nat, q: nat)
    requires forall k | 0 <= k < |sizes| :: 3 * sizes[k] > cap
    requires Fits(sizes, other, shards, cap) && q < shards
    ensures Count(other, q) <= 2
  {
    CountTimesThird(sizes, other, q, cap);
    var c := Count(other, q);
    assert c >= 3 ==> (cap + 1) * c >= (cap + 1) * 3;
  }

  lemma LonersFillOther(placed: seq<nat>, last: nat, mine: seq<nat>, other: seq<nat>, shards: nat, cap: nat)
    returns (hosts: set<nat>)
    requires Stuck(placed, last, mine, shards, cap) && Fits(placed + [last], other, shards, cap)
    ensures |hosts| == |WithCount(mine, shards, 1)|
    ensures forall r | r in hosts :: r < shards && Count(other, r) <= 1
  {
    var alone := WithCount(mine, shards, 1);
    var host := map q | q in alone :: other[SoleItem(placed, mine, q)];
    forall q | q in alone ensures Count(other, host[q]) <= 1 {
      if Count(other, host[q]) >= 2 {
        var i := AnotherItem(other, SoleItem(placed, mine, q));
        LonersDoNotShare(placed, last, mine, other, shards, cap, q, i);
      }
    }
    forall q, r | q in alone && r in alone && host[q] == host[r] ensures q == r {
      if q != r {
        LonersDoNotShare(placed, last, mine, other, shards, cap, q, SoleItem(placed, mine, r));
      }
    }
    InjectionSize(alone, host);
    hosts := Image(alone, host);
  }

  // When every shard refuses the next big item, the loners occupy whole shards of
  // `other` as well, and then `other` has too few places left: no such `other`.
  lemma BigItemsFit(placed: seq<nat>, last: nat, mine: seq<nat>, other: seq<nat>, shards: nat, cap: nat)
    requires forall k | 0 <= k <= |placed| :: 3 * (placed + [last])[k] > cap
    requires Fits(placed + [last], other, shards, cap)
    ensures !Stuck(placed, last, mine, shards, cap)
  {
    if Stuck(placed, last, mine, shards, cap) {
      forall q | 0 <= q < shards ensures Count(mine, q) >= 1 && Count(other, q) <= 2 {
        StuckShardsAreUsed(placed, last, mine, other, shards, cap, q);
        AtMostTwoBigItems(placed + [last], other, shards, cap, q);
      }
      var hosts := LonersFillOther(placed, last, mine, other, shards, cap);
      ManyDoubles(mine, shards);
      CountsConserve(mine, shards);
      FewDoubles(other, shards, hosts);
      CountsConserve(other, shards);
    }
  }

  lemma PrefixFits(sizes: seq<nat>, assign: seq<nat>, shards: nat, cap: nat)
    requires sizes != [] && Fits(sizes, assign, shards, cap)
    ensures Fits(sizes[..|sizes| - 1], assign[..|sizes| - 1], shards, cap)
  {
    var front, before := sizes[..|sizes| - 1], assign[..|sizes| - 1];
    forall q | 0 <= q < shards ensures Load(front, before, q) <= cap {
      assert Load(sizes, assign, q) <= cap;
    }
  }

  // Items all above a third of the optimum: largest-first is itself optimal.
  lemma {:induction false} BigItemsOptimal(sizes: seq<nat>, other: seq<nat>, shards: nat, cap: nat)
    requires shards > 0 && Descending(sizes)
    requires forall k | 0 <= k < |sizes| :: 3 * sizes[k] > cap
    requires Fits(sizes, other, shards, cap)
    ensures Fits(sizes, Greedy(sizes, shards), shards, cap)
  {
    if sizes == [] {
    } else {
      var n := |sizes| - 1;
      PrefixFits(sizes, other, shards, cap);
      BigItemsOptimal(sizes[..n], other[..n], shards, cap);
      var mine := Greedy(sizes[..n], shards);
      assert sizes == sizes[..n] + [sizes[n]];
      BigItemsFit(sizes[..n], sizes[n], mine, other, shards, cap);
      var q0 :| 0 <= q0 < shards && Load(sizes[..n], mine, q0) + sizes[n] <= cap;
      forall q | 0 <= q < shards ensures Load(sizes, Greedy(sizes, shards), q) <= cap {
        GreedyStep(sizes, shards, q);
        assert Load(sizes[..n], mine, q) <= cap;
        var loads := Loads(sizes[..n], mine, shards);
        assert loads[FirstLeast(loads)] <= loads[q0];
      }
    }
  }

  lemma {:induction false} FitsBoundsTotal(sizes: seq<nat>, other: seq<nat>, shards: nat, cap: nat)
    requires Fits(sizes, other, shards, cap)
    ensures Total(sizes) <= shards * cap
  {
    LoadsConserve(sizes, other, shards);
    SumAtMost(Loads(sizes, other, shards), cap);
  }

  // Graham's bound for largest-first: 3 * shards * makespan <= (4 * shards - 1) * cap
  // for the makespan `cap` of any assignment whatever.
  lemma {:induction false} LargestFirstFourThirds(sizes: seq<nat>, other: seq<nat>, shards: nat, cap: nat, q: nat)
    requires q < shards && Descending(sizes)
    requires Fits(sizes, other, shards, cap)
    ensures 3 * shards * Load(sizes, Greedy(sizes, shards), q) <= (4 * shards - 1) * cap
  {
    if sizes == [] {
      WithinCapArithmetic(shards, 0, cap);
    } else {
      var n := |sizes| - 1;
      var load := Load(sizes, Greedy(sizes, shards), q);
      if 3 * sizes[n] > cap {
        BigItemsOptimal(sizes, other, shards, cap);
        WithinCapArithmetic(shards, load, cap);
      } else {
        PrefixFits(sizes, other, shards, cap);
        LargestFirstFourThirds(sizes[..n], other[..n], shards, cap, q);
        GreedyStep(sizes, shards, q);
        LeastBelowAverage(sizes[..n], shards);
        FitsBoundsTotal(sizes, other, shards, cap);
        SmallItemArithmetic(shards, Load(sizes[..n], Greedy(sizes[..n], shards), q), load, sizes[n],
          Total(sizes[..n]), cap);
      }
    }
  }

  lemma WithinCapArithmetic(shards: nat, load: nat, cap: nat)
    requires shards > 0 && load <= cap
    ensures 3 * shards * load <= (4 * shards - 1) * cap
  {
    MulAdd(cap, 3 * shards, shards - 1);
    MulMono(3 * shards, load, cap);
    MulMono(cap, 0, shards - 1);
  }

  lemma SmallItemArithmetic(shards: nat, before: nat, load: nat, size: nat, total: nat, cap: nat)
    requires shards > 0 && 3 * size <= cap && total + size <= shards * cap
    requires load == before || (load == before + size && shards * before <= total)
    requires 3 * shards * before <= (4 * shards - 1) * cap
    ensures 3 * shards * load <= (4 * shards - 1) * cap
  {
    var m := shards - 1;
    if load != before {
      MulAdd(shards, before, size);
      MulAdd(size, m, 1);
      MulMono(m, 3 * size, cap);
      ThreeTimes(m, size);
      ThreeTimes(shards, load);
      FourTimes(shards, cap);
      Combine(shards * load, shards * before, size, m * size, total, shards * cap, m * cap);
    }
  }

  lemma Combine(load: int, before: int, size: int, spread: int, total: int, room: int, slack: int)
    requires load == before + size + spread && before <= total && total + size <= room && 3 * spread <= slack
    ensures 3 * load <= 3 * room + slack
  {
  }

  lemma FourTimes(a: int, b: int)
    ensures (4 * a - 1) * b == 3 * (a * b) + (a - 1) * b
  {
  }

  lemma ThreeTimes(a: int, b: int)
    ensures a * (3 * b) == 3 * (a * b) == 3 * a * b
  {
  }
}
