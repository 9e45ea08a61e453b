// Pool-adjacent-violators: the in-place monotone fit, and why what it returns is the
// weighted least-squares monotone fit.
module Pava {
  import opened Products

  // ----- running sums

  ghost predicate Positive(w: seq<real>) {
    forall k | 0 <= k < |w| :: w[k] > 0.0
  }

  ghost predicate Nondecreasing(s: seq<real>) {
    forall i, j | 0 <= i < j < |s| :: s[i] <= s[j]
  }

  ghost function Weight(w: seq<real>, lo: nat, hi: nat): real
    requires lo <= hi <= |w|
  {
    if lo == hi then 0.0 else Weight(w, lo, hi - 1) + w[hi - 1]
  }

  // How much the values from lo to hi outweigh one level: the sum of w (y - level).
  ghost function Excess(y: seq<real>, w: seq<real>, level: real, lo: nat, hi: nat): real
    requires lo <= hi <= |y| == |w|
  {
    if lo == hi then 0.0 else Excess(y, w, level, lo, hi - 1) + w[hi - 1] * (y[hi - 1] - level)
  }

  lemma {:induction false} ExcessSplits(y: seq<real>, w: seq<real>, level: real, lo: nat, mid: nat, hi: nat)
    requires lo <= mid <= hi <= |y| == |w|
    ensures Excess(y, w, level, lo, hi) == Excess(y, w, level, lo, mid) + Excess(y, w, level, mid, hi)
    decreases hi - mid
  {
    if mid < hi { ExcessSplits(y, w, level, lo, mid, hi - 1); }
  }

  lemma {:induction false} LowerLevelMoreExcess(y: seq<real>, w: seq<real>, level: real, lower: real, lo: nat, hi: nat)
    requires lo <= hi <= |y| == |w| && Positive(w) && lower <= level
    ensures Excess(y, w, lower, lo, hi) >= Excess(y, w, level, lo, hi)
    decreases hi
  {
    if lo < hi {
      LowerLevelMoreExcess(y, w, level, lower, lo, hi - 1);
      ScaleOrder(w[hi - 1], y[hi - 1] - level, y[hi - 1] - lower);
    }
  }

  lemma ScaleOrder(w: real, a: real, b: real)
    requires w > 0.0 && a <= b
    ensures w * a <= w * b
  {
  }

  lemma {:induction false} ShiftLevel(y: seq<real>, w: seq<real>, level: real, other: real, lo: nat, hi: nat, gap: real)
    requires lo <= hi <= |y| == |w|
    requires gap == (level - other) * Weight(w, lo, hi)
    ensures Excess(y, w, other, lo, hi) == Excess(y, w, level, lo, hi) + gap
    decreases hi
  {
    if lo < hi {
      ShiftLevel(y, w, level, other, lo, hi - 1, (level - other) * Weight(w, lo, hi - 1));
      ShiftTerm(w[hi - 1], y[hi - 1], level, other, Weight(w, lo, hi - 1));
    }
  }

  lemma ShiftTerm(w: real, y: real, level: real, other: real, weight: real)
    ensures w * (y - other) + (level - other) * weight == w * (y - level) + (level - other) * (weight + w)
  {
  }

  lemma {:induction false} NoExcessOverItself(y: seq<real>, w: seq<real>, level: real, lo: nat, hi: nat)
    requires lo <= hi <= |y| == |w|
    requires forall t | lo <= t < hi :: y[t] == level
    ensures Excess(y, w, level, lo, hi) == 0.0
    decreases hi
  {
    if lo < hi {
      NoExcessOverItself(y, w, level, lo, hi - 1);
      assert y[hi - 1] - level == 0.0;
    }
  }

  // ----- blocks

  ghost predicate LeansDown(y: seq<real>, w: seq<real>, lo: nat, t: nat, level: real)
    requires |y| == |w|
  {
    lo <= t <= |y| && Excess(y, w, level, lo, t) >= 0.0
  }

  // `level` is the weighted mean of the block and `count` its weight, no leading part
  // of the block averages below it, and a block of several values holds one that
  // differs from it.
  ghost predicate IsBlock(y: seq<real>, w: seq<real>, lo: nat, hi: nat, level: real, count: real)
    requires |y| == |w|
  {
    && lo < hi <= |y|
    && count == Weight(w, lo, hi) && count > 0.0
    && Excess(y, w, level, lo, hi) == 0.0
    && (forall t: nat {:trigger LeansDown(y, w, lo, t, level)} :: lo <= t <= hi ==> LeansDown(y, w, lo, t, level))
    && (hi - lo == 1 ==> level == y[lo])
    && (hi - lo > 1 ==> exists t :: lo <= t < hi && y[t] != level)
  }

  lemma SingletonBlock(y: seq<real>, w: seq<real>, k: nat)
    requires |y| == |w| && k < |y| && Positive(w)
    ensures IsBlock(y, w, k, k + 1, y[k], w[k])
  {
    assert Weight(w, k, k) == 0.0 && Excess(y, w, y[k], k, k) == 0.0;
    assert w[k] * (y[k] - y[k]) == 0.0;
    forall t: nat | k <= t <= k + 1 ensures LeansDown(y, w, k, t, y[k]) {
      assert t == k || t == k + 1;
    }
  }

  function PooledLevel(l1: real, c1: real, l2: real, c2: real): real
    requires c1 + c2 > 0.0
  {
    (l1 * c1 + l2 * c2) / (c1 + c2)
  }

  // The pooled mean of two blocks lies strictly between a higher and a lower level.
  lemma PooledMean(l1: real, c1: real, l2: real, c2: real)
    requires c1 > 0.0 && c2 > 0.0 && l1 > l2
    ensures var m := PooledLevel(l1, c1, l2, c2);
            l2 < m < l1 && (l1 - m) * c1 + (l2 - m) * c2 == 0.0 && (l1 - m) * c1 > 0.0
  {
    var m := PooledLevel(l1, c1, l2, c2);
    assert m * (c1 + c2) == l1 * c1 + l2 * c2;
    assert (l1 - m) * (c1 + c2) == (l1 - l2) * c2;
    assert (m - l2) * (c1 + c2) == (l1 - l2) * c1;
    PositiveFactor(l1 - m, c1 + c2, l1 - l2, c2);
    PositiveFactor(m - l2, c1 + c2, l1 - l2, c1);
  }

  lemma PositiveFactor(a: real, b: real, c: real, d: real)
    requires b > 0.0 && c > 0.0 && d > 0.0 && a * b == c * d
    ensures a > 0.0
  {
    assert c * d > 0.0;
    assert a <= 0.0 ==> a * b <= 0.0;
  }

  lemma {:induction false} WeightSplits(w: seq<real>, lo: nat, mid: nat, hi: nat)
    requires lo <= mid <= hi <= |w|
    ensures Weight(w, lo, hi) == Weight(w, lo, mid) + Weight(w, mid, hi)
    decreases hi - mid
  {
    if mid < hi { WeightSplits(w, lo, mid, hi - 1); }
  }

  lemma MergedIsMean(y: seq<real>, w: seq<real>, lo: nat, mid: nat, hi: nat, l1: real, l2: real, m: real, gap: real)
    requires lo <= mid <= hi <= |y| == |w|
    requires Excess(y, w, l1, lo, mid) == 0.0 && Excess(y, w, l2, mid, hi) == 0.0
    requires gap == (l1 - m) * Weight(w, lo, mid) && -gap == (l2 - m) * Weight(w, mid, hi)
    ensures Excess(y, w, m, lo, hi) == 0.0 && Excess(y, w, m, lo, mid) == gap
  {
    ShiftLevel(y, w, l1, m, lo, mid, gap);
    ShiftLevel(y, w, l2, m, mid, hi, -gap);
    ExcessSplits(y, w, m, lo, mid, hi);
  }

  // Every leading part of the pooled block still leans down on the pooled mean.
  lemma MergedLeansDown(y: seq<real>, w: seq<real>, lo: nat, mid: nat, hi: nat, l1: real, l2: real, m: real, t: nat)
    requires |y| == |w| && Positive(w) && l2 < m < l1
    requires lo <= mid <= hi <= |y| && lo <= t <= hi
    requires Excess(y, w, m, lo, hi) == 0.0 && Excess(y, w, l2, mid, hi) == 0.0
    requires t <= mid ==> LeansDown(y, w, lo, t, l1)
    requires mid <= t ==> LeansDown(y, w, mid, t, l2)
    ensures LeansDown(y, w, lo, t, m)
  {
    if t <= mid {
      LowerLevelMoreExcess(y, w, l1, m, lo, t);
    } else {
      ExcessSplits(y, w, m, lo, t, hi);
      ExcessSplits(y, w, l2, mid, t, hi);
      LowerLevelMoreExcess(y, w, m, l2, t, hi);
    }
  }

  lemma MergeBlocks(y: seq<real>, w: seq<real>, lo: nat, mid: nat, hi: nat,
                    l1: real, c1: real, l2: real, c2: real, m: real)
    requires |y| == |w| && Positive(w)
    requires IsBlock(y, w, lo, mid, l1, c1) && IsBlock(y, w, mid, hi, l2, c2) && l1 > l2
    requires m == PooledLevel(l1, c1, l2, c2)
    ensures IsBlock(y, w, lo, hi, m, c1 + c2)
  {
    PooledMean(l1, c1, l2, c2);
    MergedIsMean(y, w, lo, mid, hi, l1, l2, m, (l1 - m) * c1);
    WeightSplits(w, lo, mid, hi);
    forall t: nat | lo <= t <= hi ensures LeansDown(y, w, lo, t, m) {
      assert t <= mid ==> LeansDown(y, w, lo, t, l1);
      assert mid <= t ==> LeansDown(y, w, mid, t, l2);
      MergedLeansDown(y, w, lo, mid, hi, l1, l2, m, t);
    }
    if forall t | lo <= t < mid :: y[t] == m {
      NoExcessOverItself(y, w, m, lo, mid);
    }
  }

  // ----- the state of the loop

  // Block k covers the input from cuts[k] to cuts[k + 1].
  ghost predicate IsPartition(cuts: seq<nat>, blocks: nat, n: nat) {
    && |cuts| == blocks + 1 && cuts[0] == 0 && cuts[blocks] == n
    && forall i, j | 0 <= i < j < |cuts| :: cuts[i] < cuts[j]
  }

  ghost predicate BlockAt(y: seq<real>, w: seq<real>, cuts: seq<nat>, levels: seq<real>, counts: seq<real>, k: nat)
    requires |y| == |w| && |levels| == |counts| && |cuts| == |levels| + 1 && k < |levels|
  {
    IsBlock(y, w, cuts[k], cuts[k + 1], levels[k], counts[k])
  }

  ghost predicate IsPooled(y: seq<real>, w: seq<real>, cuts: seq<nat>, levels: seq<real>, counts: seq<real>) {
    && |y| == |w| && |levels| == |counts|
    && IsPartition(cuts, |levels|, |y|)
    && forall k: nat {:trigger BlockAt(y, w, cuts, levels, counts, k)} ::
         k < |levels| ==> BlockAt(y, w, cuts, levels, counts, k)
  }

  lemma StartPooled(y: seq<real>, w: seq<real>)
    requires |y| == |w| && Positive(w)
    ensures IsPooled(y, w, seq(|y| + 1, k => k), y, w)
  {
    var cuts: seq<nat> := seq(|y| + 1, k => k);
    forall k: nat | k < |y| ensures BlockAt(y, w, cuts, y, w, k) {
      SingletonBlock(y, w, k);
    }
  }

  // Two neighbours replaced by one value.
  function Splice<T>(xs: seq<T>, i: nat, x: T): (r: seq<T>)
    requires i + 1 < |xs|
    ensures |r| == |xs| - 1
    ensures forall k | 0 <= k < |r| :: r[k] == if k < i then xs[k] else if k == i then x else xs[k + 1]
  {
    xs[..i] + [x] + xs[i + 2..]
  }

  lemma SplicePartition(cuts: seq<nat>, blocks: nat, n: nat, i: nat)
    requires IsPartition(cuts, blocks, n) && i + 1 < blocks
    ensures IsPartition(Splice(cuts, i, cuts[i]), blocks - 1, n)
  {
  }

  // The blocks beside the merged one are kept.
  lemma SpliceKeepsBlock(y: seq<real>, w: seq<real>, cuts: seq<nat>, levels: seq<real>, counts: seq<real>,
                         i: nat, m: real, count: real, k: nat)
    requires IsPooled(y, w, cuts, levels, counts) && i + 1 < |levels| && k + 1 < |levels| && k != i
    ensures BlockAt(y, w, Splice(cuts, i, cuts[i]), Splice(levels, i, m), Splice(counts, i, count), k)
  {
    hide IsBlock;
    assert BlockAt(y, w, cuts, levels, counts, if k < i then k else k + 1);
  }

  lemma MergePooled(y: seq<real>, w: seq<real>, cuts: seq<nat>, levels: seq<real>, counts: seq<real>, i: nat, m: real)
    requires IsPooled(y, w, cuts, levels, counts) && Positive(w)
    requires i + 1 < |levels| && levels[i] > levels[i + 1] && counts[i] + counts[i + 1] > 0.0
    requires m == PooledLevel(levels[i], counts[i], levels[i + 1], counts[i + 1])
    ensures IsPooled(y, w, Splice(cuts, i, cuts[i]), Splice(levels, i, m), Splice(counts, i, counts[i] + counts[i + 1]))
  {
    hide IsBlock, PooledLevel;
    var cuts', levels' := Splice(cuts, i, cuts[i]), Splice(levels, i, m);
    var counts' := Splice(counts, i, counts[i] + counts[i + 1]);
    assert BlockAt(y, w, cuts, levels, counts, i) && BlockAt(y, w, cuts, levels, counts, i + 1);
    MergeBlocks(y, w, cuts[i], cuts[i + 1], cuts[i + 2], levels[i], counts[i], levels[i + 1], counts[i + 1], m);
    SplicePartition(cuts, |levels|, |y|, i);
    forall k: nat | k < |levels'| ensures BlockAt(y, w, cuts', levels', counts', k) {
      if k != i {
        SpliceKeepsBlock(y, w, cuts, levels, counts, i, m, counts[i] + counts[i + 1], k);
      }
    }
  }

  lemma CountsPositive(y: seq<real>, w: seq<real>, cuts: seq<nat>, levels: seq<real>, counts: seq<real>, k: nat)
    requires IsPooled(y, w, cuts, levels, counts) && k < |levels|
    ensures counts[k] > 0.0
  {
    assert BlockAt(y, w, cuts, levels, counts, k);
  }

  ghost predicate StepsUp(levels: seq<real>, i: nat) {
    forall j: nat | j < i && j + 1 < |levels| :: levels[j] <= levels[j + 1]
  }

  lemma {:induction false} StepsUpToEnd(levels: seq<real>, i: nat, j: nat)
    requires StepsUp(levels, |levels|) && i < j < |levels|
    ensures levels[i] <= levels[j]
    decreases j
  {
    assert levels[j - 1] <= levels[j - 1 + 1];
    if i < j - 1 { StepsUpToEnd(levels, i, j - 1); }
  }

  // `_pava`, splicing the two lists in place and stepping back after each merge; the
  // blocks behind the returned levels are the ghost result.
  method Pool(values: seq<real>, weights: seq<real>)
    returns (levels: seq<real>, ghost cuts: seq<nat>, ghost counts: seq<real>)
    requires |values| == |weights| && Positive(weights)
    ensures IsPooled(values, weights, cuts, levels, counts) && Nondecreasing(levels)
  {
    levels := values;
    var sums := weights;
    cuts := seq(|values| + 1, k => k);
    StartPooled(values, weights);
    var i: nat := 0;
    while i + 1 < |levels|
      invariant IsPooled(values, weights, cuts, levels, sums)
      invariant i == 0 || i < |levels|
      invariant StepsUp(levels, i)
      decreases 2 * |levels| - i
    {
      if levels[i] > levels[i + 1] {
        CountsPositive(values, weights, cuts, levels, sums, i);
        CountsPositive(values, weights, cuts, levels, sums, i + 1);
        var total := sums[i] + sums[i + 1];
        var merged := (levels[i] * sums[i] + levels[i + 1] * sums[i + 1]) / total;
        assert merged == PooledLevel(levels[i], sums[i], levels[i + 1], sums[i + 1]);
        MergePooled(values, weights, cuts, levels, sums, i, merged);
        levels, sums, cuts := Splice(levels, i, merged), Splice(sums, i, total), Splice(cuts, i, cuts[i]);
        i := if i > 0 then i - 1 else 0;
      } else {
        i := i + 1;
      }
    }
    assert StepsUp(levels, |levels|);
    forall a, b | 0 <= a < b < |levels| ensures levels[a] <= levels[b] {
      StepsUpToEnd(levels, a, b);
    }
    counts := sums;
  }

  // ----- the block-expanded fit

  // The block that holds input t.
  ghost function BlockOf(cuts: seq<nat>, blocks: nat, t: nat): (k: nat)
    requires |cuts| == blocks + 1 && cuts[0] <= t < cuts[blocks]
    ensures k < blocks && cuts[k] <= t < cuts[k + 1]
  {
    if t >= cuts[blocks - 1] then blocks - 1 else BlockOf(cuts[..blocks], blocks - 1, t)
  }

  // Every input value replaced by the level of its block.
  ghost function Fit(cuts: seq<nat>, levels: seq<real>, n: nat): (f: seq<real>)
    requires IsPartition(cuts, |levels|, n)
    ensures |f| == n
  {
    seq(n, t requires 0 <= t < n => levels[BlockOf(cuts, |levels|, t)])
  }

  lemma BlockOfUnique(cuts: seq<nat>, blocks: nat, n: nat, t: nat, k: nat)
    requires IsPartition(cuts, blocks, n) && k < blocks && cuts[k] <= t < cuts[k + 1]
    ensures t < n && BlockOf(cuts, blocks, t) == k
  {
    var j := BlockOf(cuts, blocks, t);
    assert cuts[k + 1] <= cuts[blocks];
  }

  // How much the first k values outweigh the fit: the sum of w (y - f).
  ghost function Surplus(y: seq<real>, w: seq<real>, f: seq<real>, k: nat): real
    requires k <= |y| == |w| == |f|
  {
    if k == 0 then 0.0 else Surplus(y, w, f, k - 1) + w[k - 1] * (y[k - 1] - f[k - 1])
  }

  lemma {:induction false} SurplusOverBlock(y: seq<real>, w: seq<real>, f: seq<real>, level: real, lo: nat, t: nat)
    requires lo <= t <= |y| == |w| == |f|
    requires forall k | lo <= k < t :: f[k] == level
    ensures Surplus(y, w, f, t) == Surplus(y, w, f, lo) + Excess(y, w, level, lo, t)
    decreases t
  {
    if lo < t { SurplusOverBlock(y, w, f, level, lo, t - 1); }
  }

  // The optimality certificate: monotone, never short of mass, and settled at the end
  // and wherever the fit steps up.
  ghost predicate IsIsotonicFit(y: seq<real>, w: seq<real>, f: seq<real>) {
    && |y| == |w| == |f|
    && Nondecreasing(f)
    && (forall k: nat {:trigger Surplus(y, w, f, k)} :: k <= |y| ==> Surplus(y, w, f, k) >= 0.0)
    && Surplus(y, w, f, |y|) == 0.0
    && (forall k: nat {:trigger Surplus(y, w, f, k)} :: 0 < k < |y| && f[k - 1] < f[k] ==> Surplus(y, w, f, k) == 0.0)
  }

  lemma {:induction false} SurplusAtCut(y: seq<real>, w: seq<real>, cuts: seq<nat>, levels: seq<real>,
                                        counts: seq<real>, k: nat)
    requires IsPooled(y, w, cuts, levels, counts) && k <= |levels|
    ensures cuts[k] <= |y| && Surplus(y, w, Fit(cuts, levels, |y|), cuts[k]) == 0.0
    decreases k
  {
    if k > 0 {
      SurplusAtCut(y, w, cuts, levels, counts, k - 1);
      assert BlockAt(y, w, cuts, levels, counts, k - 1);
      FitConstantOn(cuts, levels, |y|, k - 1);
      SurplusOverBlock(y, w, Fit(cuts, levels, |y|), levels[k - 1], cuts[k - 1], cuts[k]);
    }
  }

  lemma FitConstantOn(cuts: seq<nat>, levels: seq<real>, n: nat, k: nat)
    requires IsPartition(cuts, |levels|, n) && k < |levels|
    ensures cuts[k] < cuts[k + 1] <= n
    ensures forall t | cuts[k] <= t < cuts[k + 1] :: Fit(cuts, levels, n)[t] == levels[k]
  {
    forall t | cuts[k] <= t < cuts[k + 1] ensures t < n && Fit(cuts, levels, n)[t] == levels[k] {
      BlockOfUnique(cuts, |levels|, n, t, k);
    }
  }

  lemma SurplusInside(y: seq<real>, w: seq<real>, cuts: seq<nat>, levels: seq<real>, counts: seq<real>, t: nat)
    requires IsPooled(y, w, cuts, levels, counts) && t < |y|
    ensures Surplus(y, w, Fit(cuts, levels, |y|), t) >= 0.0
  {
    hide Surplus, Excess, Fit;
    var k := BlockOf(cuts, |levels|, t);
    SurplusAtCut(y, w, cuts, levels, counts, k);
    assert BlockAt(y, w, cuts, levels, counts, k);
    assert LeansDown(y, w, cuts[k], t, levels[k]);
    FitConstantOn(cuts, levels, |y|, k);
    SurplusOverBlock(y, w, Fit(cuts, levels, |y|), levels[k], cuts[k], t);
  }

  lemma BlocksInOrder(cuts: seq<nat>, blocks: nat, n: nat, a: nat, b: nat, i: nat, j: nat)
    requires IsPartition(cuts, blocks, n) && a < blocks && b < blocks
    requires cuts[a] <= i <= j < cuts[b + 1]
    ensures a <= b
  {
  }

  lemma FitNondecreasing(cuts: seq<nat>, levels: seq<real>, n: nat)
    requires IsPartition(cuts, |levels|, n) && Nondecreasing(levels)
    ensures Nondecreasing(Fit(cuts, levels, n))
  {
    forall i, j | 0 <= i < j < n ensures Fit(cuts, levels, n)[i] <= Fit(cuts, levels, n)[j] {
      BlocksInOrder(cuts, |levels|, n, BlockOf(cuts, |levels|, i), BlockOf(cuts, |levels|, j), i, j);
    }
  }

  // Where the fit steps up, a block begins.
  lemma SettledAtStep(y: seq<real>, w: seq<real>, cuts: seq<nat>, levels: seq<real>, counts: seq<real>, k: nat)
    requires IsPooled(y, w, cuts, levels, counts) && 0 < k < |y|
    ensures var f := Fit(cuts, levels, |y|); f[k - 1] < f[k] ==> Surplus(y, w, f, k) == 0.0
  {
    hide Surplus, BlockAt, Fit;
    var b := BlockOf(cuts, |levels|, k);
    FitConstantOn(cuts, levels, |y|, b);
    SurplusAtCut(y, w, cuts, levels, counts, b);
  }

  // What pooling returns carries the certificate.
  lemma PooledIsIsotonicFit(y: seq<real>, w: seq<real>, cuts: seq<nat>, levels: seq<real>, counts: seq<real>)
    requires IsPooled(y, w, cuts, levels, counts) && Nondecreasing(levels)
    ensures IsIsotonicFit(y, w, Fit(cuts, levels, |y|))
  {
    hide Surplus, BlockAt, Fit, Nondecreasing;
    var f := Fit(cuts, levels, |y|);
    FitNondecreasing(cuts, levels, |y|);
    SurplusAtCut(y, w, cuts, levels, counts, |levels|);
    forall k: nat | k <= |y| ensures Surplus(y, w, f, k) >= 0.0 {
      if k < |y| { SurplusInside(y, w, cuts, levels, counts, k); }
    }
    forall k: nat | 0 < k < |y| ensures f[k - 1] < f[k] ==> Surplus(y, w, f, k) == 0.0 {
      SettledAtStep(y, w, cuts, levels, counts, k);
    }
  }

  // ----- least squares

  ghost function Loss(y: seq<real>, w: seq<real>, z: seq<real>, k: nat): real
    requires k <= |y| == |w| == |z|
  {
    if k == 0 then 0.0
    else Loss(y, w, z, k - 1) + w[k - 1] * (y[k - 1] - z[k - 1]) * (y[k - 1] - z[k - 1])
  }

  // Sum of w (y - f) (f - z).
  ghost function Cross(y: seq<real>, w: seq<real>, f: seq<real>, z: seq<real>, k: nat): real
    requires k <= |y| == |w| == |f| == |z|
  {
    if k == 0 then 0.0
    else Cross(y, w, f, z, k - 1) + w[k - 1] * (y[k - 1] - f[k - 1]) * (f[k - 1] - z[k - 1])
  }

  lemma {:induction false} LossSplits(y: seq<real>, w: seq<real>, f: seq<real>, z: seq<real>, k: nat)
    requires k <= |y| == |w| == |f| == |z|
    ensures Loss(y, w, z, k) == Loss(y, w, f, k) + 2.0 * Cross(y, w, f, z, k) + Loss(f, w, z, k)
  {
    if k > 0 {
      LossSplits(y, w, f, z, k - 1);
      SquareSplits(w[k - 1], y[k - 1], f[k - 1], z[k - 1]);
    }
  }

  lemma SquareSplits(w: real, y: real, f: real, z: real)
    ensures w * (y - z) * (y - z) == w * (y - f) * (y - f) + 2.0 * (w * (y - f) * (f - z)) + w * (f - z) * (f - z)
  {
  }

  // Summation by parts, with the surplus as the running sum.
  lemma {:induction false} CrossAtLeastSurplus(y: seq<real>, w: seq<real>, f: seq<real>, z: seq<real>, k: nat)
    requires IsIsotonicFit(y, w, f) && |z| == |y| && Nondecreasing(z)
    requires 0 < k <= |y|
    ensures Cross(y, w, f, z, k) >= Surplus(y, w, f, k) * (f[k - 1] - z[k - 1])
    decreases k
  {
    var j := k - 1;
    if j == 0 {
      assert Cross(y, w, f, z, 0) == 0.0 && Surplus(y, w, f, 0) == 0.0;
      PartsStep(0.0, 0.0, w[j], y[j], f[j], z[j], f[j], z[j]);
    } else {
      CrossAtLeastSurplus(y, w, f, z, j);
      StepFacts(y, w, f, z, j);
      PartsStep(Cross(y, w, f, z, j), Surplus(y, w, f, j), w[j], y[j], f[j], z[j], f[j - 1], z[j - 1]);
    }
  }

  lemma StepFacts(y: seq<real>, w: seq<real>, f: seq<real>, z: seq<real>, j: nat)
    requires IsIsotonicFit(y, w, f) && |z| == |y| && Nondecreasing(z)
    requires 0 < j < |y|
    ensures Surplus(y, w, f, j) >= 0.0 && z[j - 1] <= z[j]
    ensures f[j - 1] == f[j] || Surplus(y, w, f, j) == 0.0
  {
    assert f[j - 1] <= f[j];
  }

  lemma PartsStep(cross: real, surplus: real, w: real, y: real, f: real, z: real, f': real, z': real)
    requires cross >= surplus * (f' - z') && surplus >= 0.0
    requires f' == f || surplus == 0.0
    requires z' <= z
    ensures cross + w * (y - f) * (f - z) >= (surplus + w * (y - f)) * (f - z)
  {
    if surplus == 0.0 {
      ZeroTimes(surplus, f' - z');
      ZeroTimes(surplus, f - z);
    } else {
      ProductNonnegative(surplus, z - z');
      TimesDifference(surplus, f - z', z - z');
    }
    Distribute(surplus, w * (y - f), f - z);
  }

  // A certified fit beats every monotone sequence, by at least their distance.
  lemma FitIsOptimal(y: seq<real>, w: seq<real>, f: seq<real>, z: seq<real>)
    requires IsIsotonicFit(y, w, f) && |z| == |y| && Nondecreasing(z)
    ensures Loss(y, w, z, |y|) >= Loss(y, w, f, |y|) + Loss(f, w, z, |y|)
  {
    LossSplits(y, w, f, z, |y|);
    CrossNonnegative(y, w, f, z);
  }

  lemma CrossNonnegative(y: seq<real>, w: seq<real>, f: seq<real>, z: seq<real>)
    requires IsIsotonicFit(y, w, f) && |z| == |y| && Nondecreasing(z)
    ensures Cross(y, w, f, z, |y|) >= 0.0
  {
    hide Cross, Surplus;
    if |y| > 0 {
      CrossAtLeastSurplus(y, w, f, z, |y|);
      ZeroTimes(Surplus(y, w, f, |y|), f[|y| - 1] - z[|y| - 1]);
    } else {
      NoCross(y, w, f, z);
    }
  }

  lemma NoCross(y: seq<real>, w: seq<real>, f: seq<real>, z: seq<real>)
    requires |y| == |w| == |f| == |z|
    ensures Cross(y, w, f, z, 0) == 0.0
  {
  }

  lemma {:induction false} LossNonnegative(y: seq<real>, w: seq<real>, z: seq<real>, k: nat)
    requires k <= |y| == |w| == |z| && Positive(w)
    ensures Loss(y, w, z, k) >= 0.0
    ensures Loss(y, w, z, k) == 0.0 ==> forall t | 0 <= t < k :: y[t] == z[t]
  {
    if k > 0 {
      LossNonnegative(y, w, z, k - 1);
      WeightedSquare(w[k - 1], y[k - 1] - z[k - 1]);
    }
  }

  lemma WeightedSquare(w: real, d: real)
    requires w > 0.0
    ensures w * d * d >= 0.0
    ensures w * d * d == 0.0 ==> d == 0.0
  {
    if d > 0.0 {
      ProductPositive(w, d);
      ProductPositive(w * d, d);
    } else if d < 0.0 {
      ProductPositive(w, -d);
      ProductPositive(w * -d, -d);
      assert w * -d * -d == w * d * d;
    }
  }

  // There is only one best monotone fit: any monotone sequence as good as it is it.
  lemma FitIsUnique(y: seq<real>, w: seq<real>, f: seq<real>, z: seq<real>)
    requires IsIsotonicFit(y, w, f) && |z| == |y| && Nondecreasing(z) && Positive(w)
    requires Loss(y, w, z, |y|) <= Loss(y, w, f, |y|)
    ensures z == f
  {
    FitIsOptimal(y, w, f, z);
    LossNonnegative(f, w, z, |y|);
  }

  lemma CertifiedFitsAgree(y: seq<real>, w: seq<real>, f: seq<real>, g: seq<real>)
    requires IsIsotonicFit(y, w, f) && IsIsotonicFit(y, w, g) && Positive(w)
    ensures f == g
  {
    FitIsOptimal(y, w, g, f);
    LossNonnegative(g, w, f, |y|);
    FitIsUnique(y, w, f, g);
  }

  // `_pava` solves its least-squares problem: over every monotone sequence.
  lemma PooledIsLeastSquares(y: seq<real>, w: seq<real>, cuts: seq<nat>, levels: seq<real>, counts: seq<real>,
                             z: seq<real>)
    requires IsPooled(y, w, cuts, levels, counts) && Nondecreasing(levels) && Positive(w)
    requires |z| == |y| && Nondecreasing(z)
    ensures Nondecreasing(Fit(cuts, levels, |y|))
    ensures Loss(y, w, Fit(cuts, levels, |y|), |y|) <= Loss(y, w, z, |y|)
    ensures Loss(y, w, Fit(cuts, levels, |y|), |y|) == Loss(y, w, z, |y|) <==> z == Fit(cuts, levels, |y|)
  {
    PooledIsIsotonicFit(y, w, cuts, levels, counts);
    var f := Fit(cuts, levels, |y|);
    FitIsOptimal(y, w, f, z);
    LossNonnegative(f, w, z, |y|);
  }

  // The level of a block is the weighted mean of its values (excess over level zero
  // is the weighted sum).
  lemma LevelIsWeightedMean(y: seq<real>, w: seq<real>, cuts: seq<nat>, levels: seq<real>, counts: seq<real>, k: nat)
    requires IsPooled(y, w, cuts, levels, counts) && k < |levels|
    ensures cuts[k] < cuts[k + 1] <= |y| && counts[k] == Weight(w, cuts[k], cuts[k + 1]) > 0.0
    ensures levels[k] == Excess(y, w, 0.0, cuts[k], cuts[k + 1]) / counts[k]
  {
    assert BlockAt(y, w, cuts, levels, counts, k);
    ShiftLevel(y, w, levels[k], 0.0, cuts[k], cuts[k + 1], (levels[k] - 0.0) * counts[k]);
    QuotientOf(levels[k], counts[k], Excess(y, w, 0.0, cuts[k], cuts[k + 1]));
  }

  lemma QuotientOf(a: real, b: real, c: real)
    requires b > 0.0 && a * b == c
    ensures a == c / b
  {
  }
}
