// Binned expected calibration error and Brier score over predicted probabilities and
// zero-one outcomes, over the reals.
module CalibrationMetrics {
  import opened Products
  import opened Wrappers

  const N_BINS: nat := 10

  // A predicted probability and whether the event came about.
  type Pair = (real, bool)

  function Outcome(y: bool): real { if y then 1.0 else 0.0 }

  ghost predicate IsForecast(pairs: seq<Pair>) {
    forall k | 0 <= k < |pairs| :: 0.0 <= pairs[k].0 <= 1.0
  }

  predicate InBin(p: real, b: nat) {
    (b as real / 10.0 <= p < (b + 1) as real / 10.0) || (b == N_BINS - 1 && p == 1.0)
  }

  // The pairs whose prediction falls into bin b, in order.
  function Chunk(pairs: seq<Pair>, b: nat): seq<Pair> {
    if pairs == [] then []
    else
      var n := |pairs| - 1;
      Chunk(pairs[..n], b) + if InBin(pairs[n].0, b) then [pairs[n]] else []
  }

  function SumPredicted(pairs: seq<Pair>): real {
    if pairs == [] then 0.0 else SumPredicted(pairs[..|pairs| - 1]) + pairs[|pairs| - 1].0
  }

  function SumObserved(pairs: seq<Pair>): real {
    if pairs == [] then 0.0 else SumObserved(pairs[..|pairs| - 1]) + Outcome(pairs[|pairs| - 1].1)
  }

  function Miss(pair: Pair): (m: real)
    ensures m == if pair.1 then pair.0 - 1.0 else pair.0
  {
    pair.0 - Outcome(pair.1)
  }

  function Squared(x: real): real { x * x }

  function SumSquares(pairs: seq<Pair>): real {
    if pairs == [] then 0.0
    else SumSquares(pairs[..|pairs| - 1]) + Squared(Miss(pairs[|pairs| - 1]))
  }

  // The mean squared miss.
  ghost predicate IsBrier(pairs: seq<Pair>, brier: real) {
    |pairs| as real * brier == SumSquares(pairs)
  }

  function Abs(x: real): (a: real)
    ensures a >= x && a >= -x && (a == x || a == -x)
  {
    if x < 0.0 then -x else x
  }

  // How far a bin's predictions miss its outcomes in total.
  function NetMiss(chunk: seq<Pair>): real {
    Abs(SumPredicted(chunk) - SumObserved(chunk))
  }

  // f(0) + ... + f(b - 1)
  function SumTo(f: nat -> real, b: nat): real {
    if b == 0 then 0.0 else SumTo(f, b - 1) + f(b - 1)
  }

  // What each bin misses in total.
  function NetOf(pairs: seq<Pair>): nat -> real {
    (b: nat) => NetMiss(Chunk(pairs, b))
  }

  // `x` is `total` per each of n.
  ghost predicate PerEach(n: real, x: real, total: real) { n * x == total }

  // The first b bins' share of the calibration error: their net misses, per forecast.
  ghost predicate IsEceUpTo(pairs: seq<Pair>, n: real, ece: real, b: nat) {
    PerEach(n, ece, SumTo(NetOf(pairs), b))
  }

  ghost predicate IsEce(pairs: seq<Pair>, ece: real) {
    IsEceUpTo(pairs, |pairs| as real, ece, N_BINS)
  }

  // There is one such error.
  lemma EceUnique(pairs: seq<Pair>, a: real, b: real)
    requires pairs != [] && IsEce(pairs, a) && IsEce(pairs, b)
    ensures a == b
  {
    hide SumTo;
    Cancel(|pairs| as real, a, b);
  }

  lemma Cancel(n: real, a: real, b: real)
    requires n > 0.0 && n * a == n * b
    ensures a == b
  {
  }

  datatype Scores = Scores(brier: real, ece: real)

  // `_metrics`: the Brier score and the calibration error; an empty input has neither.
  method Metrics(pairs: seq<Pair>) returns (scores: Option<Scores>)
    ensures scores.None? <==> pairs == []
    ensures scores.Some? ==> IsBrier(pairs, scores.value.brier) && IsEce(pairs, scores.value.ece)
    ensures scores.Some? ==> |pairs| as real * scores.value.ece == SumTo(BinMissesOf(pairs), N_BINS)
    ensures scores.Some? && IsForecast(pairs) ==> |pairs| as real * scores.value.ece >= Abs(SumMiss(pairs))
  {
    hide IsBrier, IsEce, SumTo, SumMiss;
    if pairs == [] {
      return None;
    }
    var brier := AddSquares(pairs);
    var ece := AddBins(pairs, |pairs| as real);
    EceSumsBins(pairs, ece);
    if IsForecast(pairs) {
      EceAboveBias(pairs, ece);
    }
    return Some(Scores(brier, ece));
  }

  // The mean of the squared misses.
  method AddSquares(pairs: seq<Pair>) returns (brier: real)
    requires pairs != []
    ensures IsBrier(pairs, brier)
  {
    hide Squared, Miss;
    var sum := 0.0;
    for k := 0 to |pairs|
      invariant sum == SumSquares(pairs[..k])
    {
      assert pairs[..k + 1][..k] == pairs[..k];
      sum := sum + Squared(Miss(pairs[k]));
    }
    assert pairs[..|pairs|] == pairs;
    brier := sum / |pairs| as real;
  }

  // The loop over the bins.
  method AddBins(pairs: seq<Pair>, n: real) returns (ece: real)
    requires n > 0.0 && n == |pairs| as real
    ensures IsEce(pairs, ece)
  {
    hide IsEceUpTo, IsTerm;
    ece := 0.0;
    NoBins(pairs, n);
    for b := 0 to N_BINS
      invariant IsEceUpTo(pairs, n, ece, b)
    {
      var term := BinTerm(pairs, b, n);
      AddTerm(pairs, n, ece, term, b);
      ece := ece + term;
    }
  }

  lemma NoBins(pairs: seq<Pair>, n: real)
    ensures IsEceUpTo(pairs, n, 0.0, 0)
  {
  }

  ghost predicate IsTerm(pairs: seq<Pair>, b: nat, n: real, term: real) {
    PerEach(n, term, NetMiss(Chunk(pairs, b)))
  }

  lemma AddTerm(pairs: seq<Pair>, n: real, ece: real, term: real, b: nat)
    requires IsEceUpTo(pairs, n, ece, b) && IsTerm(pairs, b, n, term)
    ensures IsEceUpTo(pairs, n, ece + term, b + 1)
  {
    hide PerEach;
    Accumulate(n, ece, term, SumTo(NetOf(pairs), b), NetOf(pairs)(b));
  }

  lemma Accumulate(n: real, x: real, y: real, a: real, b: real)
    requires PerEach(n, x, a) && PerEach(n, y, b)
    ensures PerEach(n, x + y, a + b)
  {
  }

  // A bin weighs its share of the pairs; an empty one adds nothing.
  method BinTerm(pairs: seq<Pair>, b: nat, n: real) returns (term: real)
    requires n > 0.0
    ensures IsTerm(pairs, b, n, term)
  {
    var chunk := Chunk(pairs, b);
    term := 0.0;
    if chunk != [] {
      var size := |chunk| as real;
      var mp := SumPredicted(chunk) / size;
      var my := SumObserved(chunk) / size;
      term := size / n * Abs(mp - my);
      TermArithmetic(size, n, SumPredicted(chunk), SumObserved(chunk), mp, my, term);
    }
  }

  lemma TermArithmetic(size: real, n: real, predicted: real, observed: real, mp: real, my: real, term: real)
    requires size > 0.0 && n > 0.0
    requires mp == predicted / size && my == observed / size && term == size / n * Abs(mp - my)
    ensures n * term == Abs(predicted - observed)
  {
    TimesQuotient(size, predicted, mp);
    TimesQuotient(size, observed, my);
    TimesDifference(size, mp, my);
    CancelDivision(n, size, Abs(mp - my));
    ScaleAbs(size, mp - my);
  }

  lemma TimesQuotient(size: real, x: real, q: real)
    requires size > 0.0 && q == x / size
    ensures size * q == x
  {
  }

  lemma Regroup(a: real, b: real, c: real)
    ensures a * (b * c) == (a * b) * c
  {
  }

  lemma CancelDivision(n: real, a: real, b: real)
    requires n > 0.0
    ensures n * (a / n * b) == a * b
  {
    TimesQuotient(n, a, a / n);
    Regroup(n, a / n, b);
  }

  // ----- every forecast falls into exactly one bin

  function BinOf(p: real): (b: int) {
    if p == 1.0 then N_BINS - 1 else (p * N_BINS as real).Floor
  }

  lemma ExactlyOneBin(p: real, b: nat)
    requires 0.0 <= p <= 1.0
    ensures 0 <= BinOf(p) < N_BINS
    ensures b < N_BINS ==> (InBin(p, b) <==> b == BinOf(p))
  {
    TenTimes(b as real, p);
    TenTimes((b + 1) as real, p);
  }

  lemma TenTimes(x: real, p: real)
    ensures x / 10.0 <= p <==> x <= p * 10.0
  {
  }

  function SizeOf(pairs: seq<Pair>): nat -> real {
    (b: nat) => |Chunk(pairs, b)| as real
  }

  function MissesOf(pairs: seq<Pair>): nat -> real {
    (b: nat) => SumMisses(Chunk(pairs, b))
  }

  // Sum of |p - y|.
  function SumMisses(pairs: seq<Pair>): real {
    if pairs == [] then 0.0 else SumMisses(pairs[..|pairs| - 1]) + Abs(Miss(pairs[|pairs| - 1]))
  }

  lemma ChunkStep(pairs: seq<Pair>, b: nat)
    requires pairs != []
    ensures var front, last := pairs[..|pairs| - 1], pairs[|pairs| - 1];
            Chunk(pairs, b) == if InBin(last.0, b) then Chunk(front, b) + [last] else Chunk(front, b)
  {
  }

  lemma AppendMiss(chunk: seq<Pair>, last: Pair)
    ensures SumMisses(chunk + [last]) == SumMisses(chunk) + Abs(Miss(last))
  {
    assert (chunk + [last])[..|chunk|] == chunk;
  }

  // One summand grows by `gain`, the others stay: so does the sum.
  lemma {:induction false} SumGains(f: nat -> real, g: nat -> real, home: nat, gain: real, b: nat)
    requires forall c | 0 <= c < b && c != home :: f(c) == g(c)
    requires home < b ==> f(home) == g(home) + gain
    ensures SumTo(f, b) == SumTo(g, b) + if home < b then gain else 0.0
  {
    if b > 0 { SumGains(f, g, home, gain, b - 1); }
  }

  lemma {:induction false} SumOrder(f: nat -> real, g: nat -> real, b: nat)
    requires forall c | 0 <= c < b :: 0.0 <= f(c) <= g(c)
    ensures 0.0 <= SumTo(f, b) <= SumTo(g, b)
  {
    if b > 0 { SumOrder(f, g, b - 1); }
  }

  lemma {:induction false} SumOfNothing(f: nat -> real, b: nat)
    requires forall c | 0 <= c < b :: f(c) == 0.0
    ensures SumTo(f, b) == 0.0
  {
    if b > 0 { SumOfNothing(f, b - 1); }
  }

  ghost predicate OnlyBin(pairs: seq<Pair>, home: nat, c: nat)
    requires pairs != []
  {
    InBin(pairs[|pairs| - 1].0, c) <==> c == home
  }

  lemma BinsGainOne(pairs: seq<Pair>, home: nat)
    requires pairs != [] && home < N_BINS
    requires forall c: nat {:trigger OnlyBin(pairs, home, c)} :: c < N_BINS ==> OnlyBin(pairs, home, c)
    ensures var front, last := pairs[..|pairs| - 1], pairs[|pairs| - 1];
            && SumTo(SizeOf(pairs), N_BINS) == SumTo(SizeOf(front), N_BINS) + 1.0
            && SumTo(MissesOf(pairs), N_BINS) == SumTo(MissesOf(front), N_BINS) + Abs(Miss(last))
  {
    hide SumTo, Chunk, SumMisses;
    var front, last := pairs[..|pairs| - 1], pairs[|pairs| - 1];
    forall c | 0 <= c < N_BINS
      ensures c != home ==> SizeOf(pairs)(c) == SizeOf(front)(c) && MissesOf(pairs)(c) == MissesOf(front)(c)
      ensures c == home ==> SizeOf(pairs)(c) == SizeOf(front)(c) + 1.0
      ensures c == home ==> MissesOf(pairs)(c) == MissesOf(front)(c) + Abs(Miss(last))
    {
      assert OnlyBin(pairs, home, c);
      ChunkStep(pairs, c);
      AppendMiss(Chunk(front, c), last);
    }
    SumGains(SizeOf(pairs), SizeOf(front), home, 1.0, N_BINS);
    SumGains(MissesOf(pairs), MissesOf(front), home, Abs(Miss(last)), N_BINS);
  }

  // The bins partition the pairs: counts and misses add up to the whole.
  lemma {:induction false} BinsConserve(pairs: seq<Pair>)
    requires IsForecast(pairs)
    ensures SumTo(SizeOf(pairs), N_BINS) == |pairs| as real
    ensures SumTo(MissesOf(pairs), N_BINS) == SumMisses(pairs)
  {
    hide SumTo;
    if pairs == [] {
      SumOfNothing(SizeOf(pairs), N_BINS);
      SumOfNothing(MissesOf(pairs), N_BINS);
    } else {
      BinsConserve(pairs[..|pairs| - 1]);
      var p := pairs[|pairs| - 1].0;
      ExactlyOneBin(p, 0);
      forall c: nat | c < N_BINS ensures OnlyBin(pairs, BinOf(p), c) {
        ExactlyOneBin(p, c);
      }
      BinsGainOne(pairs, BinOf(p));
    }
  }

  // ----- what the calibration error measures

  // Sum of p - y.
  ghost function SumMiss(pairs: seq<Pair>): real {
    if pairs == [] then 0.0
    else
      var last := pairs[|pairs| - 1];
      SumMiss(pairs[..|pairs| - 1]) + if last.1 then last.0 - 1.0 else last.0
  }

  // Sum of p - y over the pairs whose prediction lies in the b-th tenth, one counted to the last.
  ghost function BinMiss(pairs: seq<Pair>, b: nat): real {
    if pairs == [] then 0.0
    else
      var last := pairs[|pairs| - 1];
      var inside := (b as real <= last.0 * 10.0 < b as real + 1.0) || (b == 9 && last.0 == 1.0);
      BinMiss(pairs[..|pairs| - 1], b) + if !inside then 0.0 else if last.1 then last.0 - 1.0 else last.0
  }

  ghost function SignedOf(pairs: seq<Pair>): nat -> real {
    (b: nat) => BinMiss(pairs, b)
  }

  ghost function BinMissesOf(pairs: seq<Pair>): nat -> real {
    (b: nat) => Abs(BinMiss(pairs, b))
  }

  lemma InTenth(p: real, b: nat)
    ensures InBin(p, b) <==> (b as real <= p * 10.0 < b as real + 1.0) || (b == 9 && p == 1.0)
  {
    TenTimes(b as real, p);
    TenTimes((b + 1) as real, p);
  }

  lemma {:induction false} ChunkMiss(pairs: seq<Pair>, b: nat)
    ensures SumPredicted(Chunk(pairs, b)) - SumObserved(Chunk(pairs, b)) == BinMiss(pairs, b)
  {
    hide InBin;
    if pairs != [] {
      var front, last := pairs[..|pairs| - 1], pairs[|pairs| - 1];
      ChunkMiss(front, b);
      ChunkStep(pairs, b);
      InTenth(last.0, b);
      if InBin(last.0, b) {
        AppendSums(Chunk(front, b), last);
      }
    }
  }

  lemma AppendSums(chunk: seq<Pair>, last: Pair)
    ensures SumPredicted(chunk + [last]) == SumPredicted(chunk) + last.0
    ensures SumObserved(chunk + [last]) == SumObserved(chunk) + if last.1 then 1.0 else 0.0
  {
    assert (chunk + [last])[..|chunk|] == chunk;
  }

  lemma {:induction false} SumAlike(f: nat -> real, g: nat -> real, b: nat)
    requires forall c: nat | c < b :: f(c) == g(c)
    ensures SumTo(f, b) == SumTo(g, b)
  {
    if b > 0 { SumAlike(f, g, b - 1); }
  }

  // The error is the sum, over the bins, of how far their misses go to one side, per forecast.
  lemma EceSumsBins(pairs: seq<Pair>, ece: real)
    requires IsEce(pairs, ece)
    ensures |pairs| as real * ece == SumTo(BinMissesOf(pairs), N_BINS)
  {
    hide SumTo, NetMiss;
    forall c: nat | c < N_BINS ensures NetOf(pairs)(c) == BinMissesOf(pairs)(c) {
      ChunkMiss(pairs, c);
      NetMissIs(Chunk(pairs, c), BinMiss(pairs, c));
    }
    SumAlike(NetOf(pairs), BinMissesOf(pairs), N_BINS);
  }

  lemma NetMissIs(chunk: seq<Pair>, miss: real)
    requires SumPredicted(chunk) - SumObserved(chunk) == miss
    ensures NetMiss(chunk) == Abs(miss)
  {
  }

  lemma {:induction false} SumAbove(f: nat -> real, g: nat -> real, b: nat)
    requires forall c: nat | c < b :: g(c) == Abs(f(c))
    ensures Abs(SumTo(f, b)) <= SumTo(g, b)
  {
    if b > 0 { SumAbove(f, g, b - 1); }
  }

  // The bins' signed misses add up to the signed miss of all forecasts.
  lemma {:induction false} SignedConserve(pairs: seq<Pair>)
    requires IsForecast(pairs)
    ensures SumTo(SignedOf(pairs), N_BINS) == SumMiss(pairs)
  {
    hide SumTo, InBin;
    if pairs == [] {
      SumOfNothing(SignedOf(pairs), N_BINS);
    } else {
      var front, last := pairs[..|pairs| - 1], pairs[|pairs| - 1];
      SignedConserve(front);
      ExactlyOneBin(last.0, 0);
      var home: nat := BinOf(last.0);
      forall c: nat | c < N_BINS
        ensures SignedOf(pairs)(c) == SignedOf(front)(c) + if c != home then 0.0 else Miss(last)
      {
        ExactlyOneBin(last.0, c);
        InTenth(last.0, c);
      }
      SumGains(SignedOf(pairs), SignedOf(front), home, Miss(last), N_BINS);
    }
  }

  // The error is never below the bias of the forecasts as a whole.
  lemma EceAboveBias(pairs: seq<Pair>, ece: real)
    requires IsForecast(pairs) && IsEce(pairs, ece)
    ensures |pairs| as real * ece >= Abs(SumMiss(pairs))
  {
    hide SumTo;
    EceSumsBins(pairs, ece);
    SignedConserve(pairs);
    SumAbove(SignedOf(pairs), BinMissesOf(pairs), N_BINS);
  }

  lemma {:induction false} SumOfOne(f: nat -> real, home: nat, b: nat)
    requires forall c: nat | c < b && c != home :: f(c) == 0.0
    ensures SumTo(f, b) == if home < b then f(home) else 0.0
  {
    if b > 0 { SumOfOne(f, home, b - 1); }
  }

  lemma {:induction false} OneBinMiss(pairs: seq<Pair>, home: nat, c: nat)
    requires IsForecast(pairs) && home < N_BINS && c < N_BINS && forall k | 0 <= k < |pairs| :: InBin(pairs[k].0, home)
    ensures BinMiss(pairs, c) == if c == home then SumMiss(pairs) else 0.0
  {
    hide InBin;
    if pairs != [] {
      var p := pairs[|pairs| - 1].0;
      OneBinMiss(pairs[..|pairs| - 1], home, c);
      ExactlyOneBin(p, home);
      ExactlyOneBin(p, c);
      InTenth(p, c);
    }
  }

  // With all forecasts in one bin, it is that bias.
  lemma EceOfOneBin(pairs: seq<Pair>, ece: real, home: nat)
    requires IsForecast(pairs) && IsEce(pairs, ece)
    requires home < N_BINS && forall k | 0 <= k < |pairs| :: InBin(pairs[k].0, home)
    ensures |pairs| as real * ece == Abs(SumMiss(pairs))
  {
    hide SumTo, InBin;
    EceSumsBins(pairs, ece);
    forall c: nat | c < N_BINS && c != home ensures BinMissesOf(pairs)(c) == 0.0 {
      OneBinMiss(pairs, home, c);
    }
    OneBinMiss(pairs, home, home);
    SumOfOne(BinMissesOf(pairs), home, N_BINS);
  }

  // ----- what the Brier score measures

  // The score of one pair is its squared miss, and joining samples adds up their scores, each per forecast.
  lemma BrierOfOne(pair: Pair, brier: real)
    ensures IsBrier([pair], brier) <==>
      brier == if pair.1 then (pair.0 - 1.0) * (pair.0 - 1.0) else pair.0 * pair.0
  {
    assert [pair][..0] == [];
    assert SumSquares([pair]) == Miss(pair) * Miss(pair);
    assert |[pair]| as real == 1.0;
  }

  lemma {:induction false} SumSquaresConcat(a: seq<Pair>, b: seq<Pair>)
    ensures SumSquares(a + b) == SumSquares(a) + SumSquares(b)
  {
    if b == [] {
      assert a + b == a;
    } else {
      var n := |b| - 1;
      SumSquaresConcat(a, b[..n]);
      assert (a + b)[..|a| + n] == a + b[..n];
    }
  }

  lemma BrierOfBoth(a: seq<Pair>, b: seq<Pair>, first: real, second: real, both: real)
    requires IsBrier(a, first) && IsBrier(b, second) && IsBrier(a + b, both)
    ensures |a + b| as real * both == |a| as real * first + |b| as real * second
  {
    SumSquaresConcat(a, b);
  }

  // ----- bounds

  lemma {:induction false} NetMissBelowMisses(pairs: seq<Pair>)
    ensures Abs(SumPredicted(pairs) - SumObserved(pairs)) <= SumMisses(pairs)
  {
    if pairs != [] { NetMissBelowMisses(pairs[..|pairs| - 1]); }
  }

  lemma ScaleAbs(a: real, b: real)
    requires a > 0.0
    ensures a * Abs(b) == Abs(a * b)
  {
    if b < 0.0 {
      assert a * -b == -(a * b);
      SignOfProduct(a, -b);
    } else {
      SignOfProduct(a, b);
    }
  }

  lemma SignOfProduct(a: real, b: real)
    requires a > 0.0 && b >= 0.0
    ensures a * b >= 0.0
    ensures b > 0.0 ==> a * b > 0.0
  {
  }

  lemma NetBelowMisses(pairs: seq<Pair>, b: nat)
    ensures 0.0 <= SumTo(NetOf(pairs), b) <= SumTo(MissesOf(pairs), b)
  {
    forall c: nat | c < b ensures 0.0 <= NetOf(pairs)(c) <= MissesOf(pairs)(c) {
      NetMissBelowMisses(Chunk(pairs, c));
    }
    SumOrder(NetOf(pairs), MissesOf(pairs), b);
  }

  lemma {:induction false} MissesBelowCount(pairs: seq<Pair>)
    requires IsForecast(pairs)
    ensures 0.0 <= SumMisses(pairs) <= |pairs| as real
  {
    if pairs != [] { MissesBelowCount(pairs[..|pairs| - 1]); }
  }

  // Cauchy-Schwarz against the constant one: (sum of |d|)^2 <= n * sum of d^2.
  lemma {:induction false} MissesSquared(pairs: seq<Pair>)
    ensures Squared(SumMisses(pairs)) <= |pairs| as real * SumSquares(pairs)
  {
    if pairs != [] {
      var front, d := pairs[..|pairs| - 1], Miss(pairs[|pairs| - 1]);
      MissesSquared(front);
      SquaresStep(pairs, front, d);
      CauchyStep(SumMisses(front), SumSquares(front), |front| as real, d,
                 SumMisses(pairs), SumSquares(pairs), |pairs| as real);
    }
  }

  lemma SquaresStep(pairs: seq<Pair>, front: seq<Pair>, d: real)
    requires pairs != [] && front == pairs[..|pairs| - 1] && d == Miss(pairs[|pairs| - 1])
    ensures SumMisses(pairs) == SumMisses(front) + Abs(d) && SumSquares(pairs) == SumSquares(front) + Squared(d)
    ensures |pairs| as real == |front| as real + 1.0
    ensures front == [] ==> SumMisses(front) == 0.0 && SumSquares(front) == 0.0
  {
    hide Squared;
  }

  lemma AbsSquared(d: real)
    ensures Squared(Abs(d)) == Squared(d)
  {
  }

  lemma CauchyStep(a: real, s: real, n: real, d: real, a': real, s': real, n': real)
    requires n >= 1.0 || (n == 0.0 && a == 0.0 && s == 0.0)
    requires Squared(a) <= n * s
    requires a' == a + Abs(d) && s' == s + Squared(d) && n' == n + 1.0
    ensures Squared(a') <= n' * s'
  {
    AbsSquared(d);
    CauchyArithmetic(a, s, n, Abs(d));
  }

  lemma CauchyArithmetic(a: real, s: real, n: real, x: real)
    requires n >= 1.0 || (n == 0.0 && a == 0.0 && s == 0.0)
    requires a * a <= n * s
    ensures (a + x) * (a + x) <= (n + 1.0) * (s + x * x)
  {
    if n >= 1.0 {
      var gap := s + n * (x * x) - 2.0 * (a * x);
      assert n * gap == n * s + (n * x) * (n * x) - 2.0 * a * (n * x);
      Square(a - n * x);
      assert (a - n * x) * (a - n * x) == a * a - 2.0 * a * (n * x) + (n * x) * (n * x);
      NonnegativeFactor(n, gap);
      assert (a + x) * (a + x) == a * a + 2.0 * (a * x) + x * x;
      assert (n + 1.0) * (s + x * x) == n * s + s + n * (x * x) + x * x;
    }
  }

  lemma Square(x: real)
    ensures x * x >= 0.0
  {
  }

  lemma NonnegativeFactor(n: real, g: real)
    requires n > 0.0 && n * g >= 0.0
    ensures g >= 0.0
  {
    if g < 0.0 { SignOfProduct(n, -g); }
  }

  // The calibration error is a probability, and its square never exceeds the Brier score.
  lemma EceBounds(pairs: seq<Pair>, brier: real, ece: real)
    requires IsForecast(pairs) && pairs != []
    requires IsBrier(pairs, brier) && IsEce(pairs, ece)
    ensures 0.0 <= ece <= 1.0
    ensures ece * ece <= brier
  {
    hide SumTo, SumMisses, SumSquares, Squared;
    BoundsOfSums(pairs);
    FinalArithmetic(|pairs| as real, ece, brier, SumTo(NetOf(pairs), N_BINS), SumMisses(pairs), SumSquares(pairs));
  }

  lemma BoundsOfSums(pairs: seq<Pair>)
    requires IsForecast(pairs)
    ensures 0.0 <= SumTo(NetOf(pairs), N_BINS) <= SumMisses(pairs) <= |pairs| as real
    ensures Squared(SumMisses(pairs)) <= |pairs| as real * SumSquares(pairs)
  {
    hide SumTo, SumMisses, SumSquares, Squared;
    NetBelowMisses(pairs, N_BINS);
    BinsConserve(pairs);
    MissesBelowCount(pairs);
    MissesSquared(pairs);
  }

  lemma FinalArithmetic(n: real, ece: real, brier: real, net: real, misses: real, squares: real)
    requires n >= 1.0 && 0.0 <= net <= misses <= n && Squared(misses) <= n * squares
    requires n * ece == net && n * brier == squares
    ensures 0.0 <= ece <= 1.0 && ece * ece <= brier
  {
    NonnegativeFactor(n, ece);
    NonnegativeFactor(n, 1.0 - ece);
    OrderedSquares(net, misses);
    assert n * (n * (brier - ece * ece)) == n * squares - net * net;
    NonnegativeFactor(n, n * (brier - ece * ece));
    NonnegativeFactor(n, brier - ece * ece);
  }

  lemma OrderedSquares(a: real, b: real)
    requires 0.0 <= a <= b
    ensures a * a <= b * b
  {
  }
}
