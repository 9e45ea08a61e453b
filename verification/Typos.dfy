// The two generators of misspelt surfaces, and where their outputs lie in the two
// edit distances.
module Typos {
  import opened EditDistance
  import opened Wrappers

  function SwapAt(s: string, left: nat, right: nat): (t: string)
    requires left < |s| && right < |s|
    ensures |t| == |s| && t[left] == s[right] && t[right] == s[left]
    ensures forall k | 0 <= k < |s| && k != left && k != right :: t[k] == s[k]
  {
    s[left := s[right]][right := s[left]]
  }

  // ----- distances between strings of one length

  ghost predicate AgreeOutside(a: string, b: string, left: nat, right: nat)
    requires |a| == |b|
  {
    forall k {:trigger a[k]} {:trigger b[k]} | 0 <= k < |a| && k != left && k != right :: a[k] == b[k]
  }

  function Passed(k: nat, n: nat): nat { if k < n then 1 else 0 }

  lemma {:induction false} LevAtMostMismatches(a: string, b: string, left: nat, right: nat, n: nat)
    requires n <= |a| == |b| && AgreeOutside(a, b, left, right)
    ensures LevAt(a, b, n, n) <= Passed(left, n) + Passed(right, n)
  {
    if n > 0 {
      var m := n - 1;
      LevAtMostMismatches(a, b, left, right, m);
      assert a[m] == b[m] || m == left || m == right;
    }
  }

  // With one edit, strings of one length differ in one place at most.
  lemma {:induction false} OneEditOnePlace(script: Script) returns (k: nat)
    requires SwapFree(script) && Cost(script) <= 1 && |Source(script)| == |Target(script)|
    ensures AgreeOutside(Source(script), Target(script), k, k)
  {
    k := 0;
    if script != [] {
      var front, op := script[..|script| - 1], script[|script| - 1];
      if op.Keep? {
        k := OneEditOnePlace(front);
      } else {
        FreeScriptKeeps(front);
        k := |Source(front)|;
      }
    }
  }

  lemma TwoMismatchesCostTwo(a: string, b: string, left: nat, right: nat)
    requires |a| == |b| && left < right < |a| && a[left] != b[left] && a[right] != b[right]
    ensures Lev(a, b) >= 2
  {
    if Lev(a, b) <= 1 {
      var script := BestLevScript(a, b);
      var k := OneEditOnePlace(script);
    }
  }

  // Exchanging two different characters costs two substitutions, however far apart they are,
  // and no cheaper insert/delete/substitute script does it.
  lemma SwapCostsTwoEdits(s: string, left: nat, right: nat)
    requires left < right < |s| && s[left] != s[right]
    ensures Lev(s, SwapAt(s, left, right)) == 2
  {
    var t := SwapAt(s, left, right);
    LevAtMostMismatches(s, t, left, right, |s|);
    TwoMismatchesCostTwo(s, t, left, right);
  }

  lemma {:induction false} OsaSharedPrefix(a: string, b: string, n: nat)
    requires n <= |a| == |b| && forall k | 0 <= k < n :: a[k] == b[k]
    ensures OsaAt(a, b, n, n) == 0
  {
    if n > 0 { OsaSharedPrefix(a, b, n - 1); }
  }

  lemma {:induction false} OsaSharedSuffix(a: string, b: string, from: nat, n: nat)
    requires from <= n <= |a| == |b| && forall k | from <= k < n :: a[k] == b[k]
    ensures OsaAt(a, b, n, n) <= OsaAt(a, b, from, from)
    decreases n
  {
    hide OsaAt;
    if n > from {
      OsaSharedSuffix(a, b, from, n - 1);
      OsaReached(a, b, n, n, OsaAt(a, b, n, n), OsaAt(a, b, n - 1, n - 1), Keep(a[n - 1]));
    }
  }

  lemma CrossingCostsOne(a: string, b: string, k: nat)
    requires k + 2 <= |a| && k + 2 <= |b| && a[k] == b[k + 1] && a[k + 1] == b[k]
    ensures OsaAt(a, b, k + 2, k + 2) <= OsaAt(a, b, k, k) + 1
  {
    assert CrossedAt(a, b, k + 2, k + 2);
  }

  // Exchanging two different neighbours is one transposition.
  lemma NeighbourSwapIsOneTransposition(s: string, k: nat)
    requires k + 1 < |s| && s[k] != s[k + 1]
    ensures Osa(s, SwapAt(s, k, k + 1)) == 1
  {
    var t := SwapAt(s, k, k + 1);
    OsaSharedPrefix(s, t, k);
    CrossingCostsOne(s, t, k);
    OsaSharedSuffix(s, t, k + 2, |s|);
    assert s[k] != t[k];
    OsaZeroIffEqual(s, t);
  }

  // ----- _typo

  predicate TypoCandidate(value: string, isAlpha: char -> bool, k: nat) {
    k + 1 < |value| && isAlpha(value[k]) && isAlpha(value[k + 1]) && value[k] != value[k + 1]
  }

  // The positions below `n` where `holds`, in ascending order.
  function Positions(n: nat, holds: nat -> bool): (found: seq<nat>)
    ensures forall i | 0 <= i < |found| :: found[i] < n && holds(found[i])
    ensures forall i, j | 0 <= i < j < |found| :: found[i] < found[j]
    ensures forall k: nat {:trigger k in found} | k < n && holds(k) :: k in found
  {
    if n == 0 then []
    else Positions(n - 1, holds) + if holds(n - 1) then [n - 1] else []
  }

  function Candidates(value: string, isAlpha: char -> bool): (found: seq<nat>)
    ensures forall k: nat :: k in found <==> TypoCandidate(value, isAlpha, k)
    ensures forall i, j | 0 <= i < j < |found| :: found[i] < found[j]
    ensures forall i | 0 <= i < |found| :: TypoCandidate(value, isAlpha, found[i])
    ensures found == [] <==> forall k: nat :: !TypoCandidate(value, isAlpha, k)
  {
    var found := Positions(|value|, (k: nat) => TypoCandidate(value, isAlpha, k));
    assert forall k: nat | TypoCandidate(value, isAlpha, k) :: k in found;
    assert found != [] ==> TypoCandidate(value, isAlpha, found[0]);
    found
  }

  // `_typo`: exchange the two letters of the middle candidate.
  method Typo(value: string, isAlpha: char -> bool) returns (typo: Option<string>)
    ensures typo.None? <==> forall k: nat :: !TypoCandidate(value, isAlpha, k)
    ensures typo.Some? ==>
      var candidates := Candidates(value, isAlpha);
      && candidates != []
      && typo.value == SwapAt(value, candidates[|candidates| / 2], candidates[|candidates| / 2] + 1)
    ensures typo.Some? ==> Osa(value, typo.value) == 1 && Lev(value, typo.value) == 2
  {
    var candidates := Candidates(value, isAlpha);
    if candidates == [] {
      return None;
    }
    var k := candidates[|candidates| / 2];
    NeighbourSwapIsOneTransposition(value, k);
    SwapCostsTwoEdits(value, k, k + 1);
    var characters := value;
    characters := characters[k := value[k + 1]][k + 1 := value[k]];
    return Some(characters);
  }

  // ----- _misspell

  function WordLength(s: string, isSpace: char -> bool): (n: nat)
    ensures n <= |s| && (n == |s| || isSpace(s[n]))
    ensures forall k | 0 <= k < n :: !isSpace(s[k])
  {
    if s == [] || isSpace(s[0]) then 0 else 1 + WordLength(s[1..], isSpace)
  }

  // The maximal runs of characters that are not white space.
  function Split(s: string, isSpace: char -> bool): seq<string>
    decreases |s|
  {
    if s == [] then []
    else if isSpace(s[0]) then Split(s[1..], isSpace)
    else
      var n := WordLength(s, isSpace);
      assert n > 0;
      [s[..n]] + Split(s[n..], isSpace)
  }

  function Join(words: seq<string>): string {
    if words == [] then []
    else if |words| == 1 then words[0]
    else Join(words[..|words| - 1]) + " " + words[|words| - 1]
  }

  ghost predicate Normalised(title: string, isSpace: char -> bool) {
    Join(Split(title, isSpace)) == title
  }

  // The positions of the letters of a word.
  function Letters(word: string, isAlpha: char -> bool): (letters: seq<nat>)
    ensures forall i | 0 <= i < |letters| :: letters[i] < |word| && isAlpha(word[letters[i]])
    ensures forall i, j | 0 <= i < j < |letters| :: letters[i] < letters[j]
    ensures forall k: nat :: k in letters <==> k < |word| && isAlpha(word[k])
  {
    Positions(|word|, (k: nat) => k < |word| && isAlpha(word[k]))
  }

  // The p-th letter of `word` and the one after it may be exchanged.
  predicate Exchangeable(word: string, isAlpha: char -> bool, fold: char -> string, p: nat) {
    var letters := Letters(word, isAlpha);
    |letters| >= 5 && p + 1 < |letters| && fold(word[letters[p]]) != fold(word[letters[p + 1]])
  }

  function Exchanged(word: string, isAlpha: char -> bool, p: nat): (other: string)
    requires p + 1 < |Letters(word, isAlpha)|
    ensures |other| == |word|
  {
    var letters := Letters(word, isAlpha);
    SwapAt(word, letters[p], letters[p + 1])
  }

  // The first word that has an exchangeable pair, and its first such pair.
  ghost predicate FirstPair(words: seq<string>, isAlpha: char -> bool, fold: char -> string, index: nat, p: nat) {
    && index < |words| && Exchangeable(words[index], isAlpha, fold, p)
    && (forall q: nat | q < p :: !Exchangeable(words[index], isAlpha, fold, q))
    && NoPairBelow(words, isAlpha, fold, index)
  }

  ghost predicate NoPair(word: string, isAlpha: char -> bool, fold: char -> string) {
    forall q: nat :: !Exchangeable(word, isAlpha, fold, q)
  }

  ghost predicate NoPairBelow(words: seq<string>, isAlpha: char -> bool, fold: char -> string, n: nat) {
    n <= |words| && forall k | 0 <= k < n :: NoPair(words[k], isAlpha, fold)
  }

  ghost predicate Misspelt(words: seq<string>, isAlpha: char -> bool, fold: char -> string, index: nat, p: nat,
                           typo: string) {
    FirstPair(words, isAlpha, fold, index, p) && typo == Join(words[index := Exchanged(words[index], isAlpha, p)])
  }

  // The first exchangeable pair of one word.
  method FindPair(word: string, isAlpha: char -> bool, fold: char -> string) returns (pair: Option<nat>)
    ensures pair.None? <==> NoPair(word, isAlpha, fold)
    ensures pair.Some? ==> Exchangeable(word, isAlpha, fold, pair.value)
    ensures pair.Some? ==> forall q: nat | q < pair.value :: !Exchangeable(word, isAlpha, fold, q)
  {
    var letters := Letters(word, isAlpha);
    if |letters| < 5 {
      return None;
    }
    for p := 0 to |letters| - 1
      invariant forall q: nat | q < p :: !Exchangeable(word, isAlpha, fold, q)
    {
      if fold(word[letters[p]]) != fold(word[letters[p + 1]]) {
        assert Exchangeable(word, isAlpha, fold, p);
        return Some(p);
      }
    }
    return None;
  }

  lemma {:induction false} JoinAround(words: seq<string>, index: nat, other: string)
    returns (front: string, back: string)
    requires index < |words|
    ensures Join(words) == front + words[index] + back
    ensures Join(words[index := other]) == front + other + back
    decreases |words|
  {
    var n := |words| - 1;
    var replaced := words[index := other];
    if n == 0 {
      front, back := [], [];
    } else if index == n {
      front, back := Join(words[..n]) + " ", [];
      assert replaced[..n] == words[..n];
    } else {
      front, back := JoinAround(words[..n], index, other);
      assert replaced[..n] == words[..n][index := other];
      assert Join(words) == front + words[index] + (back + " " + words[n]);
      assert Join(replaced) == front + other + (back + " " + words[n]);
      back := back + " " + words[n];
    }
  }

  lemma SwapInside(front: string, word: string, back: string, left: nat, right: nat)
    requires left < right < |word|
    ensures front + SwapAt(word, left, right) + back == SwapAt(front + word + back, |front| + left, |front| + right)
  {
  }

  lemma ExchangeCostsTwo(words: seq<string>, isAlpha: char -> bool, fold: char -> string, index: nat, p: nat)
    requires index < |words| && Exchangeable(words[index], isAlpha, fold, p)
    ensures Lev(Join(words), Join(words[index := Exchanged(words[index], isAlpha, p)])) == 2
  {
    hide Join, Letters, SwapAt;
    var word := words[index];
    var letters := Letters(word, isAlpha);
    var left, right := letters[p], letters[p + 1];
    var front, back := JoinAround(words, index, SwapAt(word, left, right));
    SwapInside(front, word, back, left, right);
    SwapCostsTwoEdits(front + word + back, |front| + left, |front| + right);
  }

  lemma ExchangeIsMisspelling(words: seq<string>, isAlpha: char -> bool, fold: char -> string, index: nat, p: nat,
                              typo: string)
    requires FirstPair(words, isAlpha, fold, index, p)
    requires typo == Join(words[index := Exchanged(words[index], isAlpha, p)])
    ensures Lev(Join(words), typo) == 2 && Misspelt(words, isAlpha, fold, index, p, typo)
  {
    hide Join, Lev, Exchangeable, Exchanged;
    ExchangeCostsTwo(words, isAlpha, fold, index, p);
  }

  lemma AppendingCostsOne(s: string, c: char)
    ensures Lev(s, s + [c]) == 1
  {
    var t := s + [c];
    LevToPrefix(s, t, |s|);
    LevAtLeastLengthGap(s, t, |s|, |t|);
  }

  lemma {:induction false} LevToPrefix(a: string, b: string, n: nat)
    requires n <= |a| && n < |b| && forall k | 0 <= k < n :: a[k] == b[k]
    ensures LevAt(a, b, n, n) == 0 && LevAt(a, b, n, n + 1) <= 1
  {
    if n > 0 { LevToPrefix(a, b, n - 1); }
  }

  // `_misspell`: the first exchangeable pair of the first word that has one, or an "x" more.
  method Misspell(title: string, isAlpha: char -> bool, fold: char -> string, isSpace: char -> bool)
    returns (typo: string)
    ensures var words := Split(title, isSpace);
      || (NoPairBelow(words, isAlpha, fold, |words|) && typo == title + "x" && Lev(title, typo) == 1)
      || (Lev(Join(words), typo) == 2 && exists index: nat, p: nat :: Misspelt(words, isAlpha, fold, index, p, typo))
    ensures Normalised(title, isSpace) ==> 1 <= Lev(title, typo) <= 2
  {
    hide Join, Split, Lev, Exchangeable, Exchanged;
    var words := Split(title, isSpace);
    for index := 0 to |words|
      invariant NoPairBelow(words, isAlpha, fold, index)
    {
      var pair := FindPair(words[index], isAlpha, fold);
      if pair.Some? {
        typo := Join(words[index := Exchanged(words[index], isAlpha, pair.value)]);
        ExchangeIsMisspelling(words, isAlpha, fold, index, pair.value, typo);
        return;
      }
    }
    AppendingCostsOne(title, 'x');
    return title + "x";
  }

  // What `_misspell` makes of a normalised title passes the fuzzy filter.
  method MisspellIsNear(title: string, isAlpha: char -> bool, fold: char -> string, isSpace: char -> bool)
    returns (typo: string, near: bool)
    requires Normalised(title, isSpace)
    ensures near && typo != title
  {
    typo := Misspell(title, isAlpha, fold, isSpace);
    near := EditDistanceLe2(title, typo);
    if typo == title {
      LevAtMostMismatches(title, title, 0, 0, 0);
      LevToItself(title, |title|);
    }
  }

  lemma {:induction false} LevToItself(a: string, n: nat)
    requires n <= |a|
    ensures LevAt(a, a, n, n) == 0
  {
    if n > 0 { LevToItself(a, n - 1); }
  }
}
