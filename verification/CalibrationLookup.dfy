// The binned calibration lookup. The code pairs the i-th bin edge with the i-th pooled
// level without expanding the blocks; what that costs, and exactly when it costs nothing.
module CalibrationLookup {
  import opened Pava
  import opened Products
  import opened Sorting

  type Entry = (real, real)

  // `_predict`
  function Predict(lookup: seq<Entry>, score: real): real {
    if lookup == [] then 0.0
    else if score <= lookup[0].0 then lookup[0].1
    else if |lookup| == 1 then lookup[0].1
    else Predict(lookup[1..], score)
  }

  // Entry k is the first whose edge admits the score, or the last.
  ghost predicate AdmitsFirst(lookup: seq<Entry>, score: real, k: nat)
    requires k < |lookup|
  {
    (forall j | 0 <= j < k :: lookup[j].0 < score) && (score <= lookup[k].0 || k == |lookup| - 1)
  }

  method PredictScore(lookup: seq<Entry>, score: real) returns (p: real)
    ensures p == Predict(lookup, score)
    ensures lookup == [] ==> p == 0.0
    ensures lookup != [] ==>
      exists k: nat :: k < |lookup| && p == lookup[k].1 && AdmitsFirst(lookup, score, k)
  {
    if lookup != [] {
      PredictIsLevelAtPlace(lookup, score);
    }
    for k := 0 to |lookup|
      invariant Predict(lookup, score) == Predict(lookup[k..], score) || (k == |lookup| && k > 0)
      invariant k == |lookup| > 0 ==> Predict(lookup, score) == lookup[k - 1].1
    {
      if score <= lookup[k].0 {
        return lookup[k].1;
      }
      assert lookup[k..][1..] == lookup[k + 1..];
    }
    p := if lookup != [] then lookup[|lookup| - 1].1 else 0.0;
  }

  // The place of the first edge that admits the score, or the last place.
  function Place(lookup: seq<Entry>, score: real): (k: nat)
    requires lookup != []
    ensures k < |lookup|
    ensures forall j | 0 <= j < k :: lookup[j].0 < score
    ensures k < |lookup| - 1 ==> score <= lookup[k].0
  {
    if score <= lookup[0].0 || |lookup| == 1 then 0 else 1 + Place(lookup[1..], score)
  }

  lemma {:induction false} PredictIsLevelAtPlace(lookup: seq<Entry>, score: real)
    requires lookup != []
    ensures Predict(lookup, score) == lookup[Place(lookup, score)].1
    decreases |lookup|
  {
    if !(score <= lookup[0].0) && |lookup| > 1 {
      PredictIsLevelAtPlace(lookup[1..], score);
    }
  }

  lemma {:induction false} PlaceMonotone(lookup: seq<Entry>, low: real, high: real)
    requires lookup != [] && low <= high
    ensures Place(lookup, low) <= Place(lookup, high)
    decreases |lookup|
  {
    if lookup[0].0 < low && |lookup| > 1 { PlaceMonotone(lookup[1..], low, high); }
  }

  // Cutting a lookup short sends the scores beyond it to its last entry.
  lemma {:induction false} PlaceInPrefix(short: seq<Entry>, long: seq<Entry>, score: real)
    requires 0 < |short| <= |long| && forall k | 0 <= k < |short| :: short[k].0 == long[k].0
    ensures Place(short, score) == if Place(long, score) < |short| then Place(long, score) else |short| - 1
    decreases |short|
  {
    if short[0].0 < score && |short| > 1 { PlaceInPrefix(short[1..], long[1..], score); }
  }

  ghost predicate LevelsNondecreasing(lookup: seq<Entry>) {
    forall i, j | 0 <= i < j < |lookup| :: lookup[i].1 <= lookup[j].1
  }

  // A higher score is never given a lower probability.
  lemma PredictMonotone(lookup: seq<Entry>, low: real, high: real)
    requires LevelsNondecreasing(lookup) && low <= high
    ensures Predict(lookup, low) <= Predict(lookup, high)
  {
    if lookup != [] {
      PredictIsLevelAtPlace(lookup, low);
      PredictIsLevelAtPlace(lookup, high);
      PlaceMonotone(lookup, low, high);
    }
  }

  // ----- binning

  const N_BINS: nat := 10

  type Sample = (real, int)

  // Samples are ordered by score, then by label.
  predicate SampleLe(a: Sample, b: Sample) {
    a.0 < b.0 || (a.0 == b.0 && a.1 <= b.1)
  }

  function LabelSum(samples: seq<Sample>): int {
    if samples == [] then 0 else LabelSum(samples[..|samples| - 1]) + samples[|samples| - 1].1
  }

  function BinStart(n: nat, b: nat): (lo: nat)
    requires b <= N_BINS
    ensures lo <= n
    ensures b == 0 ==> lo == 0
    ensures b == N_BINS ==> lo == n
  {
    b * n / N_BINS
  }

  // The edge, mean label and size of one nonempty bin.
  datatype Bin = Bin(edge: real, mean: real, count: nat)

  function MakeBin(chunk: seq<Sample>): (bin: Bin)
    requires chunk != []
    ensures bin.count > 0
  {
    Bin(chunk[|chunk| - 1].0, LabelSum(chunk) as real / |chunk| as real, |chunk|)
  }

  function Chunk(sorted: seq<Sample>, b: nat): seq<Sample>
    requires b < N_BINS
  {
    BinsTile(|sorted|, b);
    sorted[BinStart(|sorted|, b)..BinStart(|sorted|, b + 1)]
  }

  lemma BinsTile(n: nat, b: nat)
    requires b < N_BINS
    ensures BinStart(n, b) <= BinStart(n, b + 1)
  {
    assert (b + 1) * n == b * n + n;
  }

  // The first `b` bins without the empty ones.
  function Bins(sorted: seq<Sample>, b: nat): (bins: seq<Bin>)
    requires b <= N_BINS
    ensures forall k | 0 <= k < |bins| :: bins[k].count > 0
  {
    if b == 0 then []
    else
      var chunk := Chunk(sorted, b - 1);
      Bins(sorted, b - 1) + if chunk == [] then [] else [MakeBin(chunk)]
  }

  function Edges(bins: seq<Bin>): (edges: seq<real>)
    ensures |edges| == |bins|
    ensures forall k | 0 <= k < |bins| :: edges[k] == bins[k].edge
  {
    seq(|bins|, k requires 0 <= k < |bins| => bins[k].edge)
  }

  function Means(bins: seq<Bin>): (means: seq<real>)
    ensures |means| == |bins|
    ensures forall k | 0 <= k < |bins| :: means[k] == bins[k].mean
  {
    seq(|bins|, k requires 0 <= k < |bins| => bins[k].mean)
  }

  function Counts(bins: seq<Bin>): (counts: seq<real>)
    ensures |counts| == |bins|
    ensures forall k | 0 <= k < |bins| :: counts[k] == bins[k].count as real
  {
    seq(|bins|, k requires 0 <= k < |bins| => bins[k].count as real)
  }

  // Edges paired with levels, position by position, as far as both go.
  function Zip(edges: seq<real>, levels: seq<real>): (r: seq<Entry>)
    ensures |r| == if |edges| < |levels| then |edges| else |levels|
    ensures forall k | 0 <= k < |r| :: r[k] == (edges[k], levels[k])
  {
    seq(if |edges| < |levels| then |edges| else |levels|,
        k requires 0 <= k < |edges| && k < |levels| => (edges[k], levels[k]))
  }

  lemma BinsStep(sorted: seq<Sample>, b: nat)
    requires b < N_BINS
    ensures var bins, chunk := Bins(sorted, b), Chunk(sorted, b);
            Bins(sorted, b + 1) == if chunk == [] then bins else bins + [MakeBin(chunk)]
  {
  }

  lemma AppendBin(bins: seq<Bin>, bin: Bin)
    ensures Edges(bins + [bin]) == Edges(bins) + [bin.edge]
    ensures Means(bins + [bin]) == Means(bins) + [bin.mean]
    ensures Counts(bins + [bin]) == Counts(bins) + [bin.count as real]
  {
  }

  // ----- what the bins hold

  predicate IsOne(x: Sample) { x.1 == 1 }

  ghost predicate ZeroOne(samples: seq<Sample>) {
    forall k | 0 <= k < |samples| :: samples[k].1 == 0 || samples[k].1 == 1
  }

  lemma {:induction false} LabelSumIsOnes(samples: seq<Sample>)
    requires ZeroOne(samples)
    ensures LabelSum(samples) == CountIf(samples, IsOne)
  {
    if samples != [] { LabelSumIsOnes(samples[..|samples| - 1]); }
  }

  // A bin of the samples from lo to hi: its edge is the last score, and its mean, times its count, the number of ones.
  ghost predicate BinAt(sorted: seq<Sample>, edge: real, mean: real, count: real, lo: nat, hi: nat) {
    && lo < hi <= |sorted| && edge == sorted[hi - 1].0 && count == (hi - lo) as real
    && mean * count == LabelSum(sorted[lo..hi]) as real
    && (ZeroOne(sorted) ==> mean * count == CountIf(sorted[lo..hi], IsOne) as real)
  }

  // The bins cover the samples in order, bin k from ends[k] to ends[k + 1]: ten shares of equal size up to rounding,
  // or one bin for each of fewer than ten samples.
  ghost predicate AreBins(sorted: seq<Sample>, edges: seq<real>, means: seq<real>, counts: seq<real>, ends: seq<nat>) {
    && |edges| == |means| == |counts| == |ends| - 1
    && (forall k | 0 <= k < |counts| :: BinAt(sorted, edges[k], means[k], counts[k], ends[k], ends[k + 1]))
    && |counts| == (if |sorted| < 10 then |sorted| else 10)
    && (forall k | 0 <= k < |ends| :: ends[k] == if |sorted| < 10 then k else k * |sorted| / 10)
  }

  ghost function Ends(n: nat, b: nat): (ends: seq<nat>)
    requires b <= N_BINS
    ensures ends != []
  {
    if b == 0 then [0]
    else if BinStart(n, b - 1) == BinStart(n, b) then Ends(n, b - 1)
    else Ends(n, b - 1) + [BinStart(n, b)]
  }

  lemma EndsStep(n: nat, b: nat)
    requires b < N_BINS
    ensures |Ends(n, 0)| == 1
    ensures Ends(n, b + 1)
         == if BinStart(n, b) == BinStart(n, b + 1) then Ends(n, b) else Ends(n, b) + [BinStart(n, b + 1)]
  {
    hide BinStart;
  }

  lemma BinStartGrows(n: nat, b: nat)
    requires b < N_BINS
    ensures n >= 10 ==> BinStart(n, b) < BinStart(n, b + 1)
    ensures n <= 10 ==> BinStart(n, b) <= BinStart(n, b + 1) <= BinStart(n, b) + 1
  {
    assert (b + 1) * n == b * n + n;
  }

  lemma {:induction false} EndsMean(n: nat, b: nat)
    requires b <= N_BINS
    ensures var ends := Ends(n, b);
      && ends[|ends| - 1] == BinStart(n, b)
      && (n < 10 ==> forall k | 0 <= k < |ends| :: ends[k] == k)
      && (n >= 10 ==> |ends| == b + 1 && forall k | 0 <= k < |ends| :: ends[k] == BinStart(n, k))
  {
    hide BinStart;
    if b > 0 {
      EndsMean(n, b - 1);
      BinStartGrows(n, b - 1);
    }
  }

  lemma MadeBin(sorted: seq<Sample>, lo: nat, hi: nat)
    requires lo < hi <= |sorted|
    ensures var bin := MakeBin(sorted[lo..hi]); BinAt(sorted, bin.edge, bin.mean, bin.count as real, lo, hi)
  {
    hide LabelSum, CountIf;
    var chunk := sorted[lo..hi];
    MeanTimesCount(LabelSum(chunk) as real, |chunk| as real);
    if ZeroOne(sorted) {
      LabelSumIsOnes(chunk);
    }
  }

  lemma MeanTimesCount(total: real, n: real)
    requires n > 0.0
    ensures total / n * n == total
  {
  }

  lemma {:induction false} BinsHold(sorted: seq<Sample>, b: nat)
    requires b <= N_BINS
    ensures var bins, ends := Bins(sorted, b), Ends(|sorted|, b);
      && |ends| == |bins| + 1
      && forall k | 0 <= k < |bins| ::
           BinAt(sorted, bins[k].edge, bins[k].mean, bins[k].count as real, ends[k], ends[k + 1])
  {
    hide BinAt, MakeBin, BinStart, Bins, Ends;
    if b == 0 {
      NoBinsYet(sorted);
      EndsStep(|sorted|, 0);
    } else {
      var n, c := |sorted|, b - 1;
      BinsHold(sorted, c);
      EndsStep(n, c);
      EndsMean(n, c);
      BinsTile(n, c);
      BinsStep(sorted, c);
      if Chunk(sorted, c) != [] {
        MadeBin(sorted, BinStart(n, c), BinStart(n, b));
      }
    }
  }

  lemma BinsAreBins(sorted: seq<Sample>)
    ensures var bins := Bins(sorted, N_BINS);
      AreBins(sorted, Edges(bins), Means(bins), Counts(bins), Ends(|sorted|, N_BINS))
  {
    hide BinAt, Bins;
    BinsHold(sorted, N_BINS);
    EndsMean(|sorted|, N_BINS);
  }

  // The loop over the ten equal-count bins.
  method BinUp(sorted: seq<Sample>)
    returns (edges: seq<real>, means: seq<real>, counts: seq<real>, ghost ends: seq<nat>)
    ensures edges == Edges(Bins(sorted, N_BINS)) && means == Means(Bins(sorted, N_BINS))
    ensures counts == Counts(Bins(sorted, N_BINS))
    ensures AreBins(sorted, edges, means, counts, ends)
  {
    hide AreBins, Chunk, Bins, MakeBin;
    NoBinsYet(sorted);
    BinsAreBins(sorted);
    ends := Ends(|sorted|, N_BINS);
    edges, means, counts := [], [], [];
    for b := 0 to N_BINS
      invariant edges == Edges(Bins(sorted, b)) && means == Means(Bins(sorted, b)) && counts == Counts(Bins(sorted, b))
    {
      var chunk := Chunk(sorted, b);
      BinsStep(sorted, b);
      if chunk != [] {
        var bin := MakeBin(chunk);
        AppendBin(Bins(sorted, b), bin);
        edges, means, counts := edges + [bin.edge], means + [bin.mean], counts + [bin.count as real];
      }
    }
  }

  // ----- what the lookup promises

  lemma {:induction false} LabelSumInRange(samples: seq<Sample>)
    requires forall k | 0 <= k < |samples| :: 0 <= samples[k].1 <= 1
    ensures 0 <= LabelSum(samples) <= |samples|
  {
    if samples != [] { LabelSumInRange(samples[..|samples| - 1]); }
  }

  lemma {:induction false} BinMeansInUnit(sorted: seq<Sample>, b: nat)
    requires b <= N_BINS
    requires forall k | 0 <= k < |sorted| :: 0 <= sorted[k].1 <= 1
    ensures forall k | 0 <= k < |Bins(sorted, b)| :: 0.0 <= Bins(sorted, b)[k].mean <= 1.0
  {
    if b > 0 {
      BinMeansInUnit(sorted, b - 1);
      var chunk := Chunk(sorted, b - 1);
      if chunk != [] {
        LabelSumInRange(chunk);
        RatioInUnit(LabelSum(chunk), |chunk|);
      }
    }
  }

  lemma TermSign(w: real, d: real)
    requires w > 0.0
    ensures d >= 0.0 ==> w * d >= 0.0
    ensures d <= 0.0 ==> w * d <= 0.0
    ensures d > 0.0 ==> w * d > 0.0
    ensures d < 0.0 ==> w * d < 0.0
  {
  }

  lemma {:induction false} ExcessStrict(y: seq<real>, w: seq<real>, level: real, lo: nat, hi: nat)
    requires lo < hi <= |y| == |w| && Positive(w)
    ensures (forall t | lo <= t < hi :: y[t] > level) ==> Excess(y, w, level, lo, hi) > 0.0
    ensures (forall t | lo <= t < hi :: y[t] < level) ==> Excess(y, w, level, lo, hi) < 0.0
    decreases hi
  {
    hide Excess;
    TermSign(w[hi - 1], y[hi - 1] - level);
    ExcessLast(y, w, level, lo, hi);
    if lo < hi - 1 { ExcessStrict(y, w, level, lo, hi - 1); }
  }

  lemma ExcessLast(y: seq<real>, w: seq<real>, level: real, lo: nat, hi: nat)
    requires lo < hi <= |y| == |w|
    ensures Excess(y, w, level, lo, hi) == Excess(y, w, level, lo, hi - 1) + w[hi - 1] * (y[hi - 1] - level)
    ensures lo == hi - 1 ==> Excess(y, w, level, lo, hi - 1) == 0.0
  {
  }

  // Pooling never leaves the range of the means it pools.
  lemma LevelsWithinMeans(y: seq<real>, w: seq<real>, cuts: seq<nat>, levels: seq<real>, counts: seq<real>,
                          low: real, high: real, k: nat)
    requires IsPooled(y, w, cuts, levels, counts) && Positive(w) && k < |levels|
    requires forall t | 0 <= t < |y| :: low <= y[t] <= high
    ensures low <= levels[k] <= high
  {
    assert BlockAt(y, w, cuts, levels, counts, k);
    ExcessStrict(y, w, levels[k], cuts[k], cuts[k + 1]);
    var t :| cuts[k] <= t < cuts[k + 1] && y[t] <= levels[k];
    var u :| cuts[k] <= u < cuts[k + 1] && y[u] >= levels[k];
  }

  lemma PredictWithin(lookup: seq<Entry>, low: real, high: real, score: real)
    requires lookup != [] && forall k | 0 <= k < |lookup| :: low <= lookup[k].1 <= high
    ensures low <= Predict(lookup, score) <= high
  {
    PredictIsLevelAtPlace(lookup, score);
  }

  lemma LabelsSurviveSorting(samples: seq<Sample>)
    requires forall k | 0 <= k < |samples| :: 0 <= samples[k].1 <= 1
    ensures var sorted := Sort(samples, SampleLe); forall k | 0 <= k < |sorted| :: 0 <= sorted[k].1 <= 1
  {
    var sorted := Sort(samples, SampleLe);
    forall k | 0 <= k < |sorted| ensures 0 <= sorted[k].1 <= 1 {
      MemberOfEqualMultisets(sorted, samples, k);
    }
  }

  // Fitted on zero-one labels, every prediction is a probability.
  lemma PredictionsAreProbabilities(samples: seq<Sample>, bins: seq<Bin>, cuts: seq<nat>, levels: seq<real>,
                                    sums: seq<real>, score: real)
    requires forall k | 0 <= k < |samples| :: 0 <= samples[k].1 <= 1
    requires bins == Bins(Sort(samples, SampleLe), N_BINS)
    requires IsPooled(Means(bins), Counts(bins), cuts, levels, sums) && Nondecreasing(levels)
    ensures 0.0 <= Predict(Zip(Edges(bins), levels), score) <= 1.0
  {
    LabelsSurviveSorting(samples);
    BinMeansInUnit(Sort(samples, SampleLe), N_BINS);
    forall k: nat | k < |levels| ensures 0.0 <= levels[k] <= 1.0 {
      LevelsWithinMeans(Means(bins), Counts(bins), cuts, levels, sums, 0.0, 1.0, k);
    }
    var lookup := Zip(Edges(bins), levels);
    if lookup != [] {
      PredictWithin(lookup, 0.0, 1.0, score);
    }
  }

  // ----- the missing re-expansion

  // What a score in bin b is given: level b of the pooled list, or the last one.
  function Served(levels: seq<real>, b: nat): real
    requires levels != []
  {
    if b < |levels| then levels[b] else levels[|levels| - 1]
  }

  lemma {:induction false} CutsAtLeastIndex(cuts: seq<nat>, blocks: nat, n: nat, k: nat)
    requires IsPartition(cuts, blocks, n) && k <= blocks
    ensures k <= cuts[k]
  {
    if k > 0 { CutsAtLeastIndex(cuts, blocks, n, k - 1); }
  }

  // The coded lookup never serves a bin less than its isotonic fit.
  lemma NeverUnderestimates(cuts: seq<nat>, levels: seq<real>, n: nat, b: nat)
    requires IsPartition(cuts, |levels|, n) && Nondecreasing(levels) && b < n
    ensures levels != [] && Served(levels, b) >= Fit(cuts, levels, n)[b]
  {
    var k := BlockOf(cuts, |levels|, b);
    CutsAtLeastIndex(cuts, |levels|, n, k);
  }

  // A score is given the pooled level of its bin's index, not of its bin.
  lemma ServedAtPlace(edges: seq<real>, levels: seq<real>, fit: seq<real>, score: real)
    requires 0 < |levels| <= |edges| == |fit|
    ensures var b := Place(Zip(edges, fit), score);
            && Predict(Zip(edges, fit), score) == fit[b]
            && Predict(Zip(edges, levels), score) == Served(levels, b)
  {
    PredictIsLevelAtPlace(Zip(edges, fit), score);
    PredictIsLevelAtPlace(Zip(edges, levels), score);
    PlaceInPrefix(Zip(edges, levels), Zip(edges, fit), score);
  }

  // Over every score: the coded lookup against the one with the levels re-expanded.
  lemma LookupNeverUnderestimates(edges: seq<real>, cuts: seq<nat>, levels: seq<real>, score: real)
    requires IsPartition(cuts, |levels|, |edges|) && Nondecreasing(levels)
    ensures Predict(Zip(edges, levels), score) >= Predict(Zip(edges, Fit(cuts, levels, |edges|)), score)
  {
    PartitionSize(cuts, |levels|, |edges|);
    var fit := Fit(cuts, levels, |edges|);
    if edges != [] {
      var b := Place(Zip(edges, fit), score);
      NeverUnderestimates(cuts, levels, |edges|, b);
      ServedAtPlace(edges, levels, fit, score);
    }
  }

  lemma PartitionSize(cuts: seq<nat>, blocks: nat, n: nat)
    requires IsPartition(cuts, blocks, n)
    ensures blocks <= n
  {
    CutsAtLeastIndex(cuts, blocks, n, blocks);
  }

  // From bin k on the means lean on their overall mean and never stay above it, and
  // before bin k they already rise to it: pooling can only have joined one tail.
  ghost predicate OneTail(y: seq<real>, w: seq<real>, k: nat, level: real)
    requires |y| == |w|
  {
    && k < |y|
    && (forall i, j | 0 <= i < j < k :: y[i] <= y[j])
    && (k > 0 ==> y[k - 1] <= level)
    && Excess(y, w, level, k, |y|) == 0.0
    && (forall t: nat {:trigger LeansDown(y, w, k, t, level)} :: k <= t <= |y| ==> LeansDown(y, w, k, t, level))
  }

  ghost predicate Aligned(cuts: seq<nat>, levels: seq<real>, n: nat)
    requires IsPartition(cuts, |levels|, n) && levels != []
  {
    forall b | 0 <= b < n :: Served(levels, b) == Fit(cuts, levels, n)[b]
  }

  // The fit that a one-tailed input must have.
  ghost function TailFit(y: seq<real>, k: nat, level: real): (f: seq<real>)
    requires k <= |y|
    ensures |f| == |y|
  {
    seq(|y|, t requires 0 <= t < |y| => if t < k then y[t] else level)
  }

  lemma {:induction false} NoSurplusWhereEqual(y: seq<real>, w: seq<real>, f: seq<real>, k: nat)
    requires k <= |y| == |w| == |f| && forall t | 0 <= t < k :: f[t] == y[t]
    ensures Surplus(y, w, f, k) == 0.0
  {
    if k > 0 {
      NoSurplusWhereEqual(y, w, f, k - 1);
      assert y[k - 1] - f[k - 1] == 0.0;
    }
  }

  lemma TailSurplus(y: seq<real>, w: seq<real>, k: nat, level: real, t: nat)
    requires |y| == |w| && OneTail(y, w, k, level) && t <= |y|
    ensures Surplus(y, w, TailFit(y, k, level), t) == if t <= k then 0.0 else Excess(y, w, level, k, t)
  {
    var f := TailFit(y, k, level);
    NoSurplusWhereEqual(y, w, f, if t <= k then t else k);
    if t > k {
      SurplusOverBlock(y, w, f, level, k, t);
    }
  }

  lemma TailFitIsIsotonicFit(y: seq<real>, w: seq<real>, k: nat, level: real)
    requires |y| == |w| && OneTail(y, w, k, level)
    ensures IsIsotonicFit(y, w, TailFit(y, k, level))
  {
    var f := TailFit(y, k, level);
    forall t: nat | t <= |y| ensures Surplus(y, w, f, t) >= 0.0 {
      TailSurplus(y, w, k, level, t);
      assert k <= t ==> LeansDown(y, w, k, t, level);
    }
    TailSurplus(y, w, k, level, |y|);
    forall t: nat | 0 < t < |y| ensures f[t - 1] < f[t] ==> Surplus(y, w, f, t) == 0.0 {
      TailSurplus(y, w, k, level, t);
    }
    forall i, j | 0 <= i < j < |f| ensures f[i] <= f[j] {
      assert i < k <= j ==> y[i] <= y[k - 1];
    }
  }

  // In a one-tailed input every block of several bins reaches into the tail.
  lemma OneTailAligns(y: seq<real>, w: seq<real>, cuts: seq<nat>, levels: seq<real>, counts: seq<real>, k: nat,
                      level: real)
    requires IsPooled(y, w, cuts, levels, counts) && Nondecreasing(levels) && Positive(w) && y != []
    requires OneTail(y, w, k, level)
    ensures levels != [] && Aligned(cuts, levels, |y|)
  {
    CutsAtLeastIndex(cuts, |levels|, |y|, |levels|);
    var f := Fit(cuts, levels, |y|);
    PooledIsIsotonicFit(y, w, cuts, levels, counts);
    TailFitIsIsotonicFit(y, w, k, level);
    CertifiedFitsAgree(y, w, f, TailFit(y, k, level));
    LastLevelIsTail(cuts, levels, |y|, k, level);
    forall b: nat | b < |y| ensures Served(levels, b) == f[b] {
      OneTailAlignsAt(y, w, cuts, levels, counts, k, level, b);
    }
  }

  lemma OneTailAlignsAt(y: seq<real>, w: seq<real>, cuts: seq<nat>, levels: seq<real>, counts: seq<real>,
                        k: nat, level: real, b: nat)
    requires IsPooled(y, w, cuts, levels, counts) && Nondecreasing(levels) && b < |y|
    requires OneTail(y, w, k, level) && Fit(cuts, levels, |y|) == TailFit(y, k, level)
    requires levels != [] && levels[|levels| - 1] == level
    ensures Served(levels, b) == Fit(cuts, levels, |y|)[b]
  {
    var j := BlockOf(cuts, |levels|, b);
    SingletonsBefore(y, w, cuts, levels, counts, k, level, j);
    if cuts[j] == j && cuts[j + 1] == j + 1 {
      assert b == j;
    } else {
      NeverUnderestimates(cuts, levels, |y|, b);
      assert Served(levels, b) <= levels[|levels| - 1] == level;
    }
  }

  lemma LastLevelIsTail(cuts: seq<nat>, levels: seq<real>, n: nat, k: nat, level: real)
    requires IsPartition(cuts, |levels|, n) && levels != [] && k < n
    requires forall t | k <= t < n :: Fit(cuts, levels, n)[t] == level
    ensures levels[|levels| - 1] == level
  {
    assert cuts[|levels| - 1] <= n - 1 < cuts[|levels|];
    BlockOfUnique(cuts, |levels|, n, n - 1, |levels| - 1);
    assert Fit(cuts, levels, n)[n - 1] == level;
  }

  // Up to block j every block is a single bin, or block j already has the tail's level.
  lemma {:induction false} SingletonsBefore(y: seq<real>, w: seq<real>, cuts: seq<nat>, levels: seq<real>,
                                            counts: seq<real>, k: nat, level: real, j: nat)
    requires IsPooled(y, w, cuts, levels, counts) && Nondecreasing(levels) && j < |levels|
    requires OneTail(y, w, k, level) && Fit(cuts, levels, |y|) == TailFit(y, k, level)
    requires levels[|levels| - 1] == level
    ensures (cuts[j] == j && cuts[j + 1] == j + 1) || levels[j] == level
    decreases j
  {
    if j > 0 {
      SingletonsBefore(y, w, cuts, levels, counts, k, level, j - 1);
    }
    if j > 0 && levels[j - 1] == level {
      assert levels[j - 1] <= levels[j] <= levels[|levels| - 1];
    } else {
      assert BlockAt(y, w, cuts, levels, counts, j);
      FitConstantOn(cuts, levels, |y|, j);
      if cuts[j + 1] - cuts[j] > 1 {
        var t :| cuts[j] <= t < cuts[j + 1] && y[t] != levels[j];
        assert Fit(cuts, levels, |y|)[t] == levels[j];
      }
    }
  }

  // An aligned lookup has a one-tailed input: from the first block of several bins on
  // all levels are equal.
  lemma AlignedIsOneTail(y: seq<real>, w: seq<real>, cuts: seq<nat>, levels: seq<real>, counts: seq<real>)
    returns (k: nat, level: real)
    requires IsPooled(y, w, cuts, levels, counts) && Nondecreasing(levels) && Positive(w) && y != []
    requires levels != [] && Aligned(cuts, levels, |y|)
    ensures OneTail(y, w, k, level)
  {
    level := levels[|levels| - 1];
    k := 0;
    while k + 1 < |levels| && cuts[k + 1] == k + 1
      invariant k < |levels| && cuts[k] == k
      invariant forall t | 0 <= t < k :: cuts[t] == t
    {
      k := k + 1;
    }
    CutsAtLeastIndex(cuts, |levels|, |y|, |levels|);
    TailLevelsEqual(cuts, levels, |y|, k);
    TailOfAligned(y, w, cuts, levels, counts, k, level);
  }

  lemma {:induction false} AlignedStepsEqual(cuts: seq<nat>, levels: seq<real>, n: nat, k: nat, j: nat)
    requires IsPartition(cuts, |levels|, n) && levels != [] && Nondecreasing(levels) && Aligned(cuts, levels, n)
    requires k <= j < |levels| && k + 1 < cuts[k + 1]
    ensures j + 1 < cuts[j + 1] && levels[j] == levels[k]
    decreases j
  {
    if k < j {
      AlignedStepsEqual(cuts, levels, n, k, j - 1);
      // The last bin of block j - 1 is served level j or a later one.
      var b := cuts[j] - 1;
      assert cuts[j - 1] < cuts[j] < cuts[j + 1] <= cuts[|levels|];
      BlockOfUnique(cuts, |levels|, n, b, j - 1);
      assert Served(levels, b) == Fit(cuts, levels, n)[b] == levels[j - 1];
      assert b >= j;
    }
  }

  lemma TailLevelsEqual(cuts: seq<nat>, levels: seq<real>, n: nat, k: nat)
    requires IsPartition(cuts, |levels|, n) && levels != [] && Nondecreasing(levels) && Aligned(cuts, levels, n)
    requires k < |levels| && (k + 1 == |levels| || cuts[k + 1] != k + 1)
    ensures forall j | k <= j < |levels| :: levels[j] == levels[|levels| - 1]
  {
    if k + 1 < |levels| {
      CutsAtLeastIndex(cuts, |levels|, n, k + 1);
      AlignedStepsEqual(cuts, levels, n, k, |levels| - 1);
      forall j | k <= j < |levels| ensures levels[j] == levels[|levels| - 1] {
        AlignedStepsEqual(cuts, levels, n, k, j);
      }
    }
  }

  lemma TailFits(y: seq<real>, w: seq<real>, cuts: seq<nat>, levels: seq<real>, counts: seq<real>, k: nat,
                 level: real, t: nat)
    requires IsPooled(y, w, cuts, levels, counts) && k < |levels| && t < |y|
    requires forall t | 0 <= t <= k :: cuts[t] == t
    requires forall j | k <= j < |levels| :: levels[j] == level
    ensures var f := Fit(cuts, levels, |y|); (t < k ==> f[t] == levels[t] == y[t]) && (t >= k ==> f[t] == level)
  {
    hide Excess, LeansDown, Weight;
    var j := BlockOf(cuts, |levels|, t);
    assert BlockAt(y, w, cuts, levels, counts, j);
    FitConstantOn(cuts, levels, |y|, j);
    if t < k {
      BlockOfUnique(cuts, |levels|, |y|, t, t);
    }
  }

  lemma TailOfAligned(y: seq<real>, w: seq<real>, cuts: seq<nat>, levels: seq<real>, counts: seq<real>, k: nat,
                      level: real)
    requires IsPooled(y, w, cuts, levels, counts) && Nondecreasing(levels) && k < |levels|
    requires (forall t | 0 <= t <= k :: cuts[t] == t) && level == levels[|levels| - 1]
    requires forall j | k <= j < |levels| :: levels[j] == level
    ensures OneTail(y, w, k, level)
  {
    hide Surplus, Excess, Fit, BlockAt;
    var f := Fit(cuts, levels, |y|);
    PooledIsIsotonicFit(y, w, cuts, levels, counts);
    assert cuts[k] < cuts[|levels|];
    forall t | 0 <= t < |y| ensures (t < k ==> f[t] == levels[t] == y[t]) && (t >= k ==> f[t] == level) {
      TailFits(y, w, cuts, levels, counts, k, level, t);
    }
    NoSurplusWhereEqual(y, w, f, k);
    forall t: nat | k <= t <= |y| ensures LeansDown(y, w, k, t, level) {
      SurplusOverBlock(y, w, f, level, k, t);
      assert Surplus(y, w, f, t) >= 0.0;
    }
    SurplusOverBlock(y, w, f, level, k, |y|);
  }

  // Exactly when every bin is served its own isotonic level.
  lemma AlignedIffOneTail(y: seq<real>, w: seq<real>, cuts: seq<nat>, levels: seq<real>, counts: seq<real>)
    requires IsPooled(y, w, cuts, levels, counts) && Nondecreasing(levels) && Positive(w) && y != []
    ensures levels != []
    ensures Aligned(cuts, levels, |y|) <==> exists k, level :: OneTail(y, w, k, level)
  {
    CutsAtLeastIndex(cuts, |levels|, |y|, |levels|);
    if Aligned(cuts, levels, |y|) {
      var k, level := AlignedIsOneTail(y, w, cuts, levels, counts);
    }
    if k, level :| OneTail(y, w, k, level) {
      OneTailAligns(y, w, cuts, levels, counts, k, level);
    }
  }

  // ----- which bins a score can reach

  // A score reaches a bin when it passes every earlier edge; the last bin takes all the rest.
  ghost predicate Reachable(edges: seq<real>, b: nat) {
    b < |edges| && (b == |edges| - 1 || forall j | 0 <= j < b :: edges[j] < edges[b])
  }

  // In ascending edges those are the first bin, the last, and those with an edge of their own.
  lemma {:induction false} ReachableInOrder(edges: seq<real>, b: nat)
    requires Nondecreasing(edges) && b < |edges|
    ensures Reachable(edges, b) <==> b == 0 || b == |edges| - 1 || edges[b - 1] < edges[b]
  {
    if 0 < b && edges[b - 1] < edges[b] {
      forall j | 0 <= j < b ensures edges[j] < edges[b] {
        assert j < b - 1 ==> edges[j] <= edges[b - 1];
      }
    }
  }

  lemma PlaceIsReachable(lookup: seq<Entry>, edges: seq<real>, score: real)
    requires lookup != [] && |edges| == |lookup| && forall k | 0 <= k < |lookup| :: lookup[k].0 == edges[k]
    ensures Reachable(edges, Place(lookup, score))
  {
    var b := Place(lookup, score);
    forall j | 0 <= j < b && b < |lookup| - 1 ensures edges[j] < edges[b] {
      assert lookup[j].0 < score <= lookup[b].0;
    }
  }

  ghost function AboveAll(edges: seq<real>): (score: real)
    ensures forall k | 0 <= k < |edges| :: edges[k] < score
  {
    if edges == [] then 0.0
    else
      var front, last := AboveAll(edges[..|edges| - 1]), edges[|edges| - 1];
      if last < front then front else last + 1.0
  }

  // A score that reaches the bin.
  ghost function Reaching(edges: seq<real>, b: nat): real
    requires b < |edges|
  {
    if b == |edges| - 1 then AboveAll(edges) else edges[b]
  }

  lemma ReachingReaches(lookup: seq<Entry>, edges: seq<real>, b: nat)
    requires |edges| == |lookup| && (forall k | 0 <= k < |lookup| :: lookup[k].0 == edges[k]) && Reachable(edges, b)
    ensures Place(lookup, Reaching(edges, b)) == b
  {
    PlaceUnique(lookup, Reaching(edges, b), b);
  }

  lemma PlaceUnique(lookup: seq<Entry>, score: real, b: nat)
    requires b < |lookup| && forall j | 0 <= j < b :: lookup[j].0 < score
    requires b == |lookup| - 1 || score <= lookup[b].0
    ensures Place(lookup, score) == b
  {
  }

  ghost predicate AgreeAt(edges: seq<real>, levels: seq<real>, fit: seq<real>, score: real) {
    Predict(Zip(edges, levels), score) == Predict(Zip(edges, fit), score)
  }

  // The coded lookup predicts what the re-expanded one would, at every score, exactly when every bin that a score
  // can reach is served its own level.
  lemma PredictionsAgreeIff(edges: seq<real>, cuts: seq<nat>, levels: seq<real>)
    requires IsPartition(cuts, |levels|, |edges|) && edges != []
    ensures levels != []
    ensures (forall score :: AgreeAt(edges, levels, Fit(cuts, levels, |edges|), score)) <==>
            forall b: nat | Reachable(edges, b) :: Served(levels, b) == Fit(cuts, levels, |edges|)[b]
  {
    PartitionSize(cuts, |levels|, |edges|);
    var fit := Fit(cuts, levels, |edges|);
    if forall score :: AgreeAt(edges, levels, fit, score) {
      forall b: nat | Reachable(edges, b) ensures Served(levels, b) == fit[b] {
        var score := Reaching(edges, b);
        ReachingReaches(Zip(edges, fit), edges, b);
        ServedAtPlace(edges, levels, fit, score);
        assert AgreeAt(edges, levels, fit, score);
      }
    }
    if forall b: nat | Reachable(edges, b) :: Served(levels, b) == fit[b] {
      forall score ensures AgreeAt(edges, levels, fit, score) {
        PlaceIsReachable(Zip(edges, fit), edges, score);
        ServedAtPlace(edges, levels, fit, score);
      }
    }
  }

  // One-tailed bin means are enough, whatever the edges; with distinct edges nothing less is.
  lemma OneTailAgrees(edges: seq<real>, y: seq<real>, w: seq<real>, cuts: seq<nat>, levels: seq<real>,
                      counts: seq<real>)
    requires IsPooled(y, w, cuts, levels, counts) && Nondecreasing(levels) && Positive(w) && |edges| == |y| > 0
    ensures (exists k, level :: OneTail(y, w, k, level)) ==>
              forall score :: AgreeAt(edges, levels, Fit(cuts, levels, |y|), score)
    ensures (forall i, j | 0 <= i < j < |edges| :: edges[i] < edges[j]) ==>
              ((forall score :: AgreeAt(edges, levels, Fit(cuts, levels, |y|), score)) <==>
               exists k, level :: OneTail(y, w, k, level))
  {
    hide AgreeAt, OneTail;
    PredictionsAgreeIff(edges, cuts, levels);
    AlignedIffOneTail(y, w, cuts, levels, counts);
    if forall i, j | 0 <= i < j < |edges| :: edges[i] < edges[j] {
      forall b | 0 <= b < |y| ensures Reachable(edges, b) {
      }
    }
  }

  // ----- the edges of a lookup ascend

  // No bin so far has an edge beyond the samples it has covered.
  ghost predicate EdgesWithin(sorted: seq<Sample>, bins: seq<Bin>, covered: nat) {
    && covered <= |sorted| && Nondecreasing(Edges(bins))
    && forall k | 0 <= k < |bins| :: covered > 0 && bins[k].edge <= sorted[covered - 1].0
  }

  lemma EdgesStep(sorted: seq<Sample>, bins: seq<Bin>, lo: nat, hi: nat, bin: Bin)
    requires Ordered(sorted, SampleLe) && EdgesWithin(sorted, bins, lo)
    requires lo < hi <= |sorted| && bin.edge == sorted[hi - 1].0
    ensures EdgesWithin(sorted, bins + [bin], hi)
  {
    assert lo > 0 ==> SampleLe(sorted[lo - 1], sorted[hi - 1]);
    AppendBin(bins, bin);
    var edges := Edges(bins);
    assert forall k | 0 <= k < |bins| :: edges[k] == bins[k].edge <= bin.edge;
  }

  lemma {:induction false} EdgesAscend(sorted: seq<Sample>, b: nat)
    requires b <= N_BINS && Ordered(sorted, SampleLe)
    ensures EdgesWithin(sorted, Bins(sorted, b), BinStart(|sorted|, b))
  {
    hide BinStart, Bins, EdgesWithin;
    if b == 0 {
      NoEdges(sorted);
    } else {
      var c, n := b - 1, |sorted|;
      EdgesAscend(sorted, c);
      BinsTile(n, c);
      BinsStep(sorted, c);
      var lo, hi := BinStart(n, c), BinStart(n, b);
      if lo < hi {
        assert Chunk(sorted, c)[hi - lo - 1] == sorted[hi - 1];
        EdgesStep(sorted, Bins(sorted, c), lo, hi, MakeBin(Chunk(sorted, c)));
      }
    }
  }

  lemma NoEdges(sorted: seq<Sample>)
    ensures EdgesWithin(sorted, Bins(sorted, 0), BinStart(|sorted|, 0))
  {
  }

  lemma LookupEdgesAscend(samples: seq<Sample>)
    ensures Nondecreasing(Edges(Bins(Sort(samples, SampleLe), N_BINS)))
  {
    SortOrdered(samples, SampleLe);
    EdgesAscend(Sort(samples, SampleLe), N_BINS);
  }

  // The first bin, the last one, and every bin with an edge of its own is served its own level.
  ghost predicate OwnEdgesServed(edges: seq<real>, levels: seq<real>, fit: seq<real>)
    requires levels != [] && |fit| == |edges|
  {
    forall b: nat {:trigger Served(levels, b)} | b < |edges| ::
      b == 0 || b == |edges| - 1 || edges[b - 1] < edges[b] ==> Served(levels, b) == fit[b]
  }

  lemma AscendingEdgesAgreeIff(edges: seq<real>, cuts: seq<nat>, levels: seq<real>)
    requires IsPartition(cuts, |levels|, |edges|) && edges != [] && Nondecreasing(edges)
    ensures levels != []
    ensures (forall score :: AgreeAt(edges, levels, Fit(cuts, levels, |edges|), score)) <==>
            OwnEdgesServed(edges, levels, Fit(cuts, levels, |edges|))
  {
    hide AgreeAt, Fit, Served;
    PredictionsAgreeIff(edges, cuts, levels);
    var fit := Fit(cuts, levels, |edges|);
    if OwnEdgesServed(edges, levels, fit) {
      forall b: nat | Reachable(edges, b) ensures Served(levels, b) == fit[b] {
        ReachableInOrder(edges, b);
      }
    }
    if forall b: nat | Reachable(edges, b) :: Served(levels, b) == fit[b] {
      forall b: nat | b < |edges| && (b == 0 || b == |edges| - 1 || edges[b - 1] < edges[b])
        ensures Served(levels, b) == fit[b]
      {
        ReachableInOrder(edges, b);
      }
    }
  }

  // ----- the fitted lookup

  // What fitting on samples promises of the lookup: it is monotone, its predictions are probabilities for zero-one
  // labels, and it is nowhere below the isotonic fit of the bin means.
  ghost predicate IsCalibrated(samples: seq<Sample>, lookup: seq<Entry>, fitted: seq<Entry>) {
    && (forall low, high | low <= high :: Predict(lookup, low) <= Predict(lookup, high))
    && (forall score :: Predict(lookup, score) >= Predict(fitted, score))
    && ((forall k | 0 <= k < |samples| :: 0 <= samples[k].1 <= 1) ==>
          forall score :: 0.0 <= Predict(lookup, score) <= 1.0)
  }

  // When a lookup predicts the isotonic fit at every score: exactly when every bin that a score can reach is served
  // its own level, and always for one-tailed bin means.
  ghost predicate FitsExactly(bins: seq<Bin>, cuts: seq<nat>, levels: seq<real>)
    requires IsPartition(cuts, |levels|, |bins|) && (bins != [] ==> levels != [])
  {
    var edges, fit := Edges(bins), Fit(cuts, levels, |bins|);
    && ((forall score :: AgreeAt(edges, levels, fit, score)) <==>
        bins == [] || OwnEdgesServed(edges, levels, fit))
    && ((exists k, level :: OneTail(Means(bins), Counts(bins), k, level)) ==>
        forall score :: AgreeAt(edges, levels, fit, score))
  }

  ghost function WeightedSum(w: seq<real>, f: seq<real>, k: nat): real
    requires k <= |w| == |f|
  {
    if k == 0 then 0.0 else WeightedSum(w, f, k - 1) + f[k - 1] * w[k - 1]
  }

  // Weighted by the sizes of the bins, their means and their isotonic fit both add up to the number of ones.
  ghost predicate KeepsOnes(samples: seq<Sample>, bins: seq<Bin>, cuts: seq<nat>, levels: seq<real>)
    requires IsPartition(cuts, |levels|, |bins|)
  {
    && WeightedSum(Counts(bins), Means(bins), |bins|) == CountIf(samples, IsOne) as real
    && WeightedSum(Counts(bins), Fit(cuts, levels, |bins|), |bins|) == CountIf(samples, IsOne) as real
  }

  lemma {:induction false} SurplusIsDifference(y: seq<real>, w: seq<real>, f: seq<real>, k: nat)
    requires k <= |y| == |w| == |f|
    ensures Surplus(y, w, f, k) == WeightedSum(w, y, k) - WeightedSum(w, f, k)
  {
    if k > 0 {
      SurplusIsDifference(y, w, f, k - 1);
      TimesDifference(w[k - 1], y[k - 1], f[k - 1]);
    }
  }

  lemma {:induction false} MeansKeepOnes(sorted: seq<Sample>, edges: seq<real>, means: seq<real>, counts: seq<real>,
                                         ends: seq<nat>, k: nat)
    requires ZeroOne(sorted) && |edges| == |means| == |counts| == |ends| - 1 && ends[0] == 0 && k <= |counts|
    requires forall j | 0 <= j < |counts| :: BinAt(sorted, edges[j], means[j], counts[j], ends[j], ends[j + 1])
    ensures ends[k] <= |sorted| && WeightedSum(counts, means, k) == CountIf(sorted[..ends[k]], IsOne) as real
  {
    hide CountIf, BinAt, ZeroOne, WeightedSum;
    if k == 0 {
      NoneWeighted(counts, means);
      NoneCounted(sorted[..ends[0]]);
    } else {
      var j := k - 1;
      MeansKeepOnes(sorted, edges, means, counts, ends, j);
      BinOnes(sorted, edges[j], means[j], counts[j], ends[j], ends[j + 1]);
      OnesUpTo(sorted, ends[j], ends[k]);
      WeightedNext(counts, means, j);
    }
  }

  lemma NoneWeighted(w: seq<real>, f: seq<real>)
    requires |w| == |f|
    ensures WeightedSum(w, f, 0) == 0.0
  {
  }

  lemma WeightedNext(w: seq<real>, f: seq<real>, k: nat)
    requires k < |w| == |f|
    ensures WeightedSum(w, f, k + 1) == WeightedSum(w, f, k) + f[k] * w[k]
  {
  }

  lemma BinOnes(sorted: seq<Sample>, edge: real, mean: real, count: real, lo: nat, hi: nat)
    requires ZeroOne(sorted) && BinAt(sorted, edge, mean, count, lo, hi)
    ensures lo < hi <= |sorted| && mean * count == CountIf(sorted[lo..hi], IsOne) as real
    ensures count == (hi - lo) as real
  {
    hide CountIf;
  }

  lemma OnesUpTo(sorted: seq<Sample>, lo: nat, hi: nat)
    requires lo <= hi <= |sorted|
    ensures CountIf(sorted[..hi], IsOne) == CountIf(sorted[..lo], IsOne) + CountIf(sorted[lo..hi], IsOne)
  {
    hide CountIf;
    assert sorted[..hi] == sorted[..lo] + sorted[lo..hi];
    CountIfConcat(sorted[..lo], sorted[lo..hi], IsOne);
  }

  lemma NoneCounted(samples: seq<Sample>)
    ensures samples == [] ==> CountIf(samples, IsOne) == 0
  {
  }

  lemma LookupKeepsOnes(samples: seq<Sample>, bins: seq<Bin>, cuts: seq<nat>, levels: seq<real>, sums: seq<real>)
    requires bins == Bins(Sort(samples, SampleLe), N_BINS) && ZeroOne(samples)
    requires IsPooled(Means(bins), Counts(bins), cuts, levels, sums) && Nondecreasing(levels)
    ensures KeepsOnes(samples, bins, cuts, levels)
  {
    hide Bins, CountIf, Sort, AreBins, BinAt, Fit, Surplus, WeightedSum;
    var sorted, n, ends := Sort(samples, SampleLe), |bins|, Ends(|samples|, N_BINS);
    forall k | 0 <= k < |sorted| ensures sorted[k].1 == 0 || sorted[k].1 == 1 {
      MemberOfEqualMultisets(sorted, samples, k);
    }
    BinsAreBins(sorted);
    WholeIsCovered(sorted, Edges(bins), Means(bins), Counts(bins), ends);
    MeansKeepOnes(sorted, Edges(bins), Means(bins), Counts(bins), ends, n);
    CountIfPermute(sorted, samples, IsOne);
    PooledIsIsotonicFit(Means(bins), Counts(bins), cuts, levels, sums);
    SurplusIsDifference(Means(bins), Counts(bins), Fit(cuts, levels, n), n);
  }

  lemma WholeIsCovered(sorted: seq<Sample>, edges: seq<real>, means: seq<real>, counts: seq<real>, ends: seq<nat>)
    requires AreBins(sorted, edges, means, counts, ends)
    ensures |edges| == |means| == |counts| == |ends| - 1 && ends[0] == 0
    ensures ends[|counts|] == |sorted| && sorted[..ends[|counts|]] == sorted
    ensures forall j | 0 <= j < |counts| :: BinAt(sorted, edges[j], means[j], counts[j], ends[j], ends[j + 1])
  {
  }

  // `_fit_lookup`
  method FitLookup(samples: seq<Sample>)
    returns (lookup: seq<Entry>, ghost cuts: seq<nat>, ghost levels: seq<real>, ghost sums: seq<real>)
    ensures forall low, high | low <= high :: Predict(lookup, low) <= Predict(lookup, high)
    ensures (forall k | 0 <= k < |samples| :: 0 <= samples[k].1 <= 1) ==>
              forall score :: 0.0 <= Predict(lookup, score) <= 1.0
    ensures var bins := Bins(Sort(samples, SampleLe), N_BINS);
      && IsPooled(Means(bins), Counts(bins), cuts, levels, sums) && Nondecreasing(levels)
      && lookup == Zip(Edges(bins), levels)
      && IsCalibrated(samples, lookup, Zip(Edges(bins), Fit(cuts, levels, |bins|)))
      && (bins != [] ==> levels != []) && FitsExactly(bins, cuts, levels)
      && (ZeroOne(samples) ==> KeepsOnes(samples, bins, cuts, levels))
  {
    hide Predict, IsCalibrated, FitsExactly, KeepsOnes, Bins, Fit, Zip;
    var sorted := Sort(samples, SampleLe);
    var edges, means, counts, ends := BinUp(sorted);
    var fitted;
    fitted, cuts, sums := Pool(means, counts);
    levels := fitted;
    lookup := Zip(edges, fitted);
    LookupIsCalibrated(samples, Bins(sorted, N_BINS), cuts, levels, sums);
    LookupFitsExactly(samples, Bins(sorted, N_BINS), cuts, levels, sums);
    if ZeroOne(samples) {
      LookupKeepsOnes(samples, Bins(sorted, N_BINS), cuts, levels, sums);
    }
    CalibratedPredictions(samples, lookup, Zip(edges, Fit(cuts, levels, |Bins(sorted, N_BINS)|)));
  }

  lemma CalibratedPredictions(samples: seq<Sample>, lookup: seq<Entry>, fitted: seq<Entry>)
    requires IsCalibrated(samples, lookup, fitted)
    ensures forall low, high | low <= high :: Predict(lookup, low) <= Predict(lookup, high)
    ensures (forall k | 0 <= k < |samples| :: 0 <= samples[k].1 <= 1) ==>
              forall score :: 0.0 <= Predict(lookup, score) <= 1.0
  {
    hide Predict;
  }

  lemma LookupFitsExactly(samples: seq<Sample>, bins: seq<Bin>, cuts: seq<nat>, levels: seq<real>, sums: seq<real>)
    requires bins == Bins(Sort(samples, SampleLe), N_BINS) && Positive(Counts(bins))
    requires IsPooled(Means(bins), Counts(bins), cuts, levels, sums) && Nondecreasing(levels)
    ensures bins != [] ==> levels != []
    ensures FitsExactly(bins, cuts, levels)
  {
    hide Bins, Fit, OneTail, Positive, OwnEdgesServed;
    LookupEdgesAscend(samples);
    if bins == [] {
      assert forall score :: AgreeAt(Edges(bins), levels, Fit(cuts, levels, 0), score);
    } else {
      AscendingEdgesAgreeIff(Edges(bins), cuts, levels);
      OneTailAgrees(Edges(bins), Means(bins), Counts(bins), cuts, levels, sums);
    }
  }

  lemma LookupIsCalibrated(samples: seq<Sample>, bins: seq<Bin>, cuts: seq<nat>, levels: seq<real>, sums: seq<real>)
    requires bins == Bins(Sort(samples, SampleLe), N_BINS)
    requires IsPooled(Means(bins), Counts(bins), cuts, levels, sums) && Nondecreasing(levels)
    ensures IsCalibrated(samples, Zip(Edges(bins), levels), Zip(Edges(bins), Fit(cuts, levels, |bins|)))
  {
    hide Predict;
    var lookup := Zip(Edges(bins), levels);
    forall low, high | low <= high ensures Predict(lookup, low) <= Predict(lookup, high) {
      PredictMonotone(lookup, low, high);
    }
    forall score ensures Predict(lookup, score) >= Predict(Zip(Edges(bins), Fit(cuts, levels, |bins|)), score) {
      LookupNeverUnderestimates(Edges(bins), cuts, levels, score);
    }
    if forall k | 0 <= k < |samples| :: 0 <= samples[k].1 <= 1 {
      forall score ensures 0.0 <= Predict(lookup, score) <= 1.0 {
        PredictionsAreProbabilities(samples, bins, cuts, levels, sums, score);
      }
    }
  }

  // ----- witnesses

  // Means 1, 0, 1 of equal weight: the first two bins are pooled.
  lemma PoolOneZeroOne(y: seq<real>, w: seq<real>, cuts: seq<nat>, levels: seq<real>, counts: seq<real>)
    requires y == [1.0, 0.0, 1.0] && w == [1.0, 1.0, 1.0]
    requires IsPooled(y, w, cuts, levels, counts) && Nondecreasing(levels)
    ensures cuts == [0, 2, 3] && levels == [0.5, 1.0] && Fit(cuts, levels, 3) == [0.5, 0.5, 1.0]
  {
    var f := [0.5, 0.5, 1.0];
    HalfHalfOne(y, w, f);
    PooledIsIsotonicFit(y, w, cuts, levels, counts);
    CertifiedFitsAgree(y, w, f, Fit(cuts, levels, 3));
    PartitionSize(cuts, |levels|, 3);
    BlocksOfHalfHalfOne(y, w, cuts, levels, counts);
  }

  lemma HalfHalfOne(y: seq<real>, w: seq<real>, f: seq<real>)
    requires y == [1.0, 0.0, 1.0] && w == [1.0, 1.0, 1.0] && f == [0.5, 0.5, 1.0]
    ensures IsIsotonicFit(y, w, f)
  {
    assert Surplus(y, w, f, 0) == 0.0;
    assert Surplus(y, w, f, 1) == 0.5;
    assert Surplus(y, w, f, 2) == 0.0;
    assert Surplus(y, w, f, 3) == 0.0;
    forall k: nat | k <= 3 ensures Surplus(y, w, f, k) >= 0.0 {
      assert k == 0 || k == 1 || k == 2 || k == 3;
    }
    forall k: nat | 0 < k < 3 && f[k - 1] < f[k] ensures Surplus(y, w, f, k) == 0.0 {
      assert k == 2;
    }
  }

  lemma BlocksOfHalfHalfOne(y: seq<real>, w: seq<real>, cuts: seq<nat>, levels: seq<real>, counts: seq<real>)
    requires y == [1.0, 0.0, 1.0] && w == [1.0, 1.0, 1.0] && IsPooled(y, w, cuts, levels, counts) && |levels| <= 3
    requires Fit(cuts, levels, 3) == [0.5, 0.5, 1.0]
    ensures cuts == [0, 2, 3] && levels == [0.5, 1.0]
  {
    var f := Fit(cuts, levels, 3);
    assert levels != [];
    FitConstantOn(cuts, levels, 3, 0);
    assert f[0] == levels[0] == 0.5;
    assert BlockAt(y, w, cuts, levels, counts, 0);
    assert f[2] != levels[0];
    assert 1 < cuts[1] < 3;
    FitConstantOn(cuts, levels, 3, 1);
    assert f[2] == levels[1];
  }

  // Labels 1, 0, 1 at scores 0, 1, 2: the lookup predicts 1 at score 1, where the isotonic fit is one half.
  lemma SamplesMispredicted(samples: seq<Sample>, bins: seq<Bin>, cuts: seq<nat>, levels: seq<real>, sums: seq<real>)
    requires samples == [(0.0, 1), (1.0, 0), (2.0, 1)] && bins == Bins(Sort(samples, SampleLe), N_BINS)
    requires IsPooled(Means(bins), Counts(bins), cuts, levels, sums) && Nondecreasing(levels)
    ensures Predict(Zip(Edges(bins), levels), 1.0) == 1.0
    ensures Predict(Zip(Edges(bins), Fit(cuts, levels, |bins|)), 1.0) == 0.5
  {
    hide *;
    SortedSamplesBins(samples);
    BinsMispredicted(bins, cuts, levels, sums);
  }

  lemma InOrder(samples: seq<Sample>)
    requires samples == [(0.0, 1), (1.0, 0), (2.0, 1)]
    ensures Ordered(samples, SampleLe)
  {
  }

  lemma BinsMispredicted(bins: seq<Bin>, cuts: seq<nat>, levels: seq<real>, sums: seq<real>)
    requires bins == [Bin(0.0, 1.0, 1), Bin(1.0, 0.0, 1), Bin(2.0, 1.0, 1)]
    requires IsPooled(Means(bins), Counts(bins), cuts, levels, sums) && Nondecreasing(levels)
    ensures Predict(Zip(Edges(bins), levels), 1.0) == 1.0
    ensures Predict(Zip(Edges(bins), Fit(cuts, levels, |bins|)), 1.0) == 0.5
  {
    hide Predict, IsPooled, Means, Counts, Edges, Zip, Fit;
    ColumnsOfThree(bins);
    PoolOneZeroOne(Means(bins), Counts(bins), cuts, levels, sums);
    Mispredicted(Edges(bins), levels, Fit(cuts, levels, 3));
  }

  lemma SortedSamplesBins(samples: seq<Sample>)
    requires samples == [(0.0, 1), (1.0, 0), (2.0, 1)]
    ensures Bins(Sort(samples, SampleLe), N_BINS) == [Bin(0.0, 1.0, 1), Bin(1.0, 0.0, 1), Bin(2.0, 1.0, 1)]
  {
    hide Bins, SampleLe;
    InOrder(samples);
    SortFixed(samples, SampleLe);
    OneZeroOneBins(samples);
  }

  lemma ColumnsOfThree(bins: seq<Bin>)
    requires bins == [Bin(0.0, 1.0, 1), Bin(1.0, 0.0, 1), Bin(2.0, 1.0, 1)]
    ensures Means(bins) == [1.0, 0.0, 1.0] && Counts(bins) == [1.0, 1.0, 1.0] && Edges(bins) == [0.0, 1.0, 2.0]
  {
  }

  lemma Mispredicted(edges: seq<real>, levels: seq<real>, fit: seq<real>)
    requires edges == [0.0, 1.0, 2.0] && levels == [0.5, 1.0] && fit == [0.5, 0.5, 1.0]
    ensures Predict(Zip(edges, levels), 1.0) == 1.0 && Predict(Zip(edges, fit), 1.0) == 0.5
  {
    SecondEntry(Zip(edges, levels));
    SecondEntry(Zip(edges, fit));
  }

  lemma SecondEntry(lookup: seq<Entry>)
    requires |lookup| >= 2 && lookup[0].0 == 0.0 && lookup[1].0 == 1.0
    ensures Predict(lookup, 1.0) == lookup[1].1
  {
    assert lookup[1..][0] == lookup[1];
  }

  lemma OneZeroOneBins(samples: seq<Sample>)
    requires samples == [(0.0, 1), (1.0, 0), (2.0, 1)]
    ensures Bins(samples, N_BINS) == [Bin(0.0, 1.0, 1), Bin(1.0, 0.0, 1), Bin(2.0, 1.0, 1)]
  {
    hide Bins;
    ThreeBins(samples);
    SingleBin(0.0, 1);
    SingleBin(1.0, 0);
    SingleBin(2.0, 1);
  }

  lemma SingleBin(score: real, outcome: int)
    ensures MakeBin([(score, outcome)]) == Bin(score, outcome as real, 1)
  {
    var chunk := [(score, outcome)];
    assert chunk[..0] == [];
    assert LabelSum(chunk) == outcome;
  }

  // How many of three samples the first b bins hold: the fourth, seventh and tenth bin take one each.
  function FilledByThree(b: nat): (n: nat)
    ensures n <= 3
  {
    if b <= 3 then 0 else if b <= 6 then 1 else if b <= 9 then 2 else 3
  }

  lemma {:induction false} ThreeBinsUpTo(sorted: seq<Sample>, filled: seq<Bin>, b: nat)
    requires |sorted| == 3 && b <= N_BINS
    requires filled == [MakeBin([sorted[0]]), MakeBin([sorted[1]]), MakeBin([sorted[2]])]
    ensures Bins(sorted, b) == filled[..FilledByThree(b)]
  {
    hide Bins, MakeBin;
    if b == 0 {
      NoBinsYet(sorted);
    } else {
      ThreeBinsUpTo(sorted, filled, b - 1);
      NextOfThree(sorted, b - 1, b);
    }
  }

  lemma ThreeBins(sorted: seq<Sample>)
    requires |sorted| == 3
    ensures Bins(sorted, N_BINS) == [MakeBin([sorted[0]]), MakeBin([sorted[1]]), MakeBin([sorted[2]])]
  {
    hide Bins, MakeBin;
    ThreeBinsUpTo(sorted, [MakeBin([sorted[0]]), MakeBin([sorted[1]]), MakeBin([sorted[2]])], N_BINS);
  }

  lemma NextOfThree(sorted: seq<Sample>, b: nat, next: nat)
    requires |sorted| == 3 && b < N_BINS && next == b + 1
    ensures Bins(sorted, next) == Bins(sorted, b) + ThirdOf(sorted, b)
  {
    hide Bins, MakeBin, Chunk;
    BinsStep(sorted, b);
    ChunkOfThree(sorted, b);
    assert Bins(sorted, b) + [] == Bins(sorted, b);
  }

  ghost function ThirdOf(sorted: seq<Sample>, b: nat): seq<Bin>
    requires |sorted| == 3
  {
    if b == 3 then [MakeBin([sorted[0]])]
    else if b == 6 then [MakeBin([sorted[1]])]
    else if b == 9 then [MakeBin([sorted[2]])]
    else []
  }

  lemma ChunkOfThree(sorted: seq<Sample>, b: nat)
    requires |sorted| == 3 && b < N_BINS
    ensures Chunk(sorted, b) ==
      if b == 3 then [sorted[0]] else if b == 6 then [sorted[1]] else if b == 9 then [sorted[2]] else []
  {
    assert BinStart(3, b) == 3 * b / 10 && BinStart(3, b + 1) == 3 * (b + 1) / 10;
  }

  lemma NoBinsYet(sorted: seq<Sample>)
    ensures Bins(sorted, 0) == []
  {
  }

  // Tied scores can hide the difference: with edges 0, 0, 1 the misserved second bin is never reached.
  lemma TiedEdgesAgree(cuts: seq<nat>, levels: seq<real>, counts: seq<real>, score: real)
    requires IsPooled([1.0, 0.0, 1.0], [1.0, 1.0, 1.0], cuts, levels, counts) && Nondecreasing(levels)
    ensures levels != [] && !Aligned(cuts, levels, 3)
    ensures AgreeAt([0.0, 0.0, 1.0], levels, Fit(cuts, levels, 3), score)
  {
    var edges, fit := [0.0, 0.0, 1.0], Fit(cuts, levels, 3);
    PoolOneZeroOne([1.0, 0.0, 1.0], [1.0, 1.0, 1.0], cuts, levels, counts);
    assert Served(levels, 1) == 1.0 && fit[1] == 0.5;
    PredictionsAgreeIff(edges, cuts, levels);
    forall b: nat | Reachable(edges, b) ensures Served(levels, b) == fit[b] {
      assert edges[0] == edges[1];
      assert b == 0 || b == 2;
    }
  }
}
