// Levenshtein and optimal-string-alignment distances as cheapest edit scripts, and
// the row-by-row dynamic programs that compute them.
module EditDistance {
  import opened Products

  // ----- edit scripts, read from left to right

  datatype Op = Keep(c: char) | Sub(c: char, d: char) | Ins(d: char) | Del(c: char) | Swap(c: char, d: char)

  type Script = seq<Op>

  function SourceOf(op: Op): string {
    match op
    case Keep(c) => [c]
    case Sub(c, _) => [c]
    case Ins(_) => []
    case Del(c) => [c]
    case Swap(c, d) => [c, d]
  }

  function TargetOf(op: Op): string {
    match op
    case Keep(c) => [c]
    case Sub(_, d) => [d]
    case Ins(d) => [d]
    case Del(_) => []
    case Swap(c, d) => [d, c]
  }

  // The string a script edits, and what it makes of it.
  function Source(script: Script): string {
    if script == [] then [] else Source(script[..|script| - 1]) + SourceOf(script[|script| - 1])
  }

  function Target(script: Script): string {
    if script == [] then [] else Target(script[..|script| - 1]) + TargetOf(script[|script| - 1])
  }

  function Cost(script: Script): nat {
    if script == [] then 0 else Cost(script[..|script| - 1]) + if script[|script| - 1].Keep? then 0 else 1
  }

  ghost predicate SwapFree(script: Script) {
    forall k | 0 <= k < |script| :: !script[k].Swap?
  }

  ghost predicate Edits(script: Script, a: string, b: string) {
    Source(script) == a && Target(script) == b
  }

  // ----- the recursive distances

  function Min(x: nat, y: nat): (m: nat)
    ensures m <= x && m <= y && (m == x || m == y)
  {
    if x < y then x else y
  }

  function Max(x: nat, y: nat): (m: nat)
    ensures x <= m && y <= m && (m == x || m == y)
  {
    if x < y then y else x
  }

  // The cheapest of the three ways into a table cell.
  function Cheapest(up: nat, left: nat, diagonal: nat, same: bool): nat {
    Min(Min(up + 1, left + 1), diagonal + if same then 0 else 1)
  }

  // Insert, delete and substitute, from the first i characters of a to the first j of b.
  function LevAt(a: string, b: string, i: nat, j: nat): nat
    requires i <= |a| && j <= |b|
    decreases i + j
  {
    if i == 0 then j
    else if j == 0 then i
    else Cheapest(LevAt(a, b, i - 1, j), LevAt(a, b, i, j - 1), LevAt(a, b, i - 1, j - 1), a[i - 1] == b[j - 1])
  }

  predicate CrossedAt(a: string, b: string, i: nat, j: nat)
    requires i <= |a| && j <= |b|
  {
    i >= 2 && j >= 2 && a[i - 1] == b[j - 2] && a[i - 2] == b[j - 1]
  }

  // The same with adjacent transpositions, none of them edited again.
  function OsaAt(a: string, b: string, i: nat, j: nat): nat
    requires i <= |a| && j <= |b|
    decreases i + j
  {
    if i == 0 then j
    else if j == 0 then i
    else
      var plain := Cheapest(OsaAt(a, b, i - 1, j), OsaAt(a, b, i, j - 1), OsaAt(a, b, i - 1, j - 1),
        a[i - 1] == b[j - 1]);
      if CrossedAt(a, b, i, j) then Min(plain, OsaAt(a, b, i - 2, j - 2) + 1) else plain
  }

  function Lev(a: string, b: string): nat { LevAt(a, b, |a|, |b|) }

  function Osa(a: string, b: string): nat { OsaAt(a, b, |a|, |b|) }

  // ----- the distances are the costs of cheapest scripts

  lemma AppendOp(script: Script, op: Op)
    ensures Source(script + [op]) == Source(script) + SourceOf(op)
    ensures Target(script + [op]) == Target(script) + TargetOf(op)
    ensures Cost(script + [op]) == Cost(script) + if op.Keep? then 0 else 1
  {
    assert (script + [op])[..|script|] == script;
  }

  lemma NoOps()
    ensures Source([]) == "" && Target([]) == "" && Cost([]) == 0
  {
  }

  lemma LastOp(script: Script)
    requires script != []
    ensures var front, last := script[..|script| - 1], script[|script| - 1];
      && Source(script) == Source(front) + SourceOf(last)
      && Target(script) == Target(front) + TargetOf(last)
      && Cost(script) == Cost(front) + Price(last)
  {
  }

  ghost predicate MatchesAt(s: string, k: nat, part: string) {
    k + |part| <= |s| && s[k..k + |part|] == part
  }

  lemma NoneAt(s: string, k: nat)
    requires k <= |s|
    ensures MatchesAt(s, k, [])
  {
  }

  lemma OneAt(s: string, k: nat)
    requires k < |s|
    ensures MatchesAt(s, k, [s[k]])
  {
  }

  // `op` leads from the cell (i', j') to the cell (i, j).
  ghost predicate LeadsTo(op: Op, a: string, b: string, i': nat, j': nat, i: nat, j: nat) {
    && i == i' + |SourceOf(op)| && j == j' + |TargetOf(op)|
    && MatchesAt(a, i', SourceOf(op)) && MatchesAt(b, j', TargetOf(op))
  }

  lemma PrefixSplits(s: string, front: string, back: string, k: nat)
    requires k <= |s| && s[..k] == front + back
    ensures |back| <= k && s[..k - |back|] == front && MatchesAt(s, k - |back|, back)
  {
    var m := k - |back|;
    assert s[..m] == s[..k][..m];
    assert s[m..k] == s[..k][m..];
  }

  lemma PrefixGrows(s: string, k: nat, back: string)
    requires MatchesAt(s, k, back)
    ensures s[..k + |back|] == s[..k] + back
  {
  }

  // Dropping the last operation of a script between prefixes leaves one between shorter ones.
  lemma DropOp(script: Script, a: string, b: string, i: nat, j: nat) returns (i': nat, j': nat)
    requires i <= |a| && j <= |b| && script != [] && Edits(script, a[..i], b[..j])
    ensures i' <= i && j' <= j
    ensures Edits(script[..|script| - 1], a[..i'], b[..j'])
    ensures LeadsTo(script[|script| - 1], a, b, i', j', i, j)
  {
    var front, last := script[..|script| - 1], script[|script| - 1];
    i', j' := DropBoth(a, b, Source(front), Target(front), last, i, j);
  }

  lemma DropBoth(a: string, b: string, source: string, target: string, op: Op, i: nat, j: nat)
    returns (i': nat, j': nat)
    requires i <= |a| && j <= |b| && a[..i] == source + SourceOf(op) && b[..j] == target + TargetOf(op)
    ensures i' <= i && j' <= j && a[..i'] == source && b[..j'] == target
    ensures LeadsTo(op, a, b, i', j', i, j)
  {
    PrefixSplits(a, source, SourceOf(op), i);
    PrefixSplits(b, target, TargetOf(op), j);
    i', j' := i - |SourceOf(op)|, j - |TargetOf(op)|;
  }

  function Price(op: Op): nat { if op.Keep? then 0 else 1 }

  // The characters a step passes over.
  lemma StepCharacters(a: string, b: string, i': nat, j': nat, i: nat, j: nat, op: Op)
    requires LeadsTo(op, a, b, i', j', i, j)
    ensures i' <= i <= |a| && j' <= j <= |b|
    ensures op.Keep? ==> i == i' + 1 && j == j' + 1 && a[i'] == b[j']
    ensures op.Sub? ==> i == i' + 1 && j == j' + 1
    ensures op.Ins? ==> i == i' && j == j' + 1
    ensures op.Del? ==> i == i' + 1 && j == j'
    ensures op.Swap? ==> i == i' + 2 && j == j' + 2 && a[i'] == b[j' + 1] && a[i' + 1] == b[j']
  {
    var s, t := a[i'..i], b[j'..j];
    match op
    case Keep(c) => assert s[0] == a[i'] && t[0] == b[j'];
    case Swap(c, d) =>
      assert s[0] == a[i'] && s[1] == a[i' + 1] && t[0] == b[j'] && t[1] == b[j' + 1];
    case _ =>
  }

  // The value of a cell from the values of the cells it is reached from.
  lemma OsaReached(a: string, b: string, i: nat, j: nat, here: nat, from: nat, op: Op)
    requires i <= |a| && j <= |b| && here == OsaAt(a, b, i, j)
    requires op.Keep? ==> i > 0 && j > 0 && a[i - 1] == b[j - 1] && from == OsaAt(a, b, i - 1, j - 1)
    requires op.Sub? ==> i > 0 && j > 0 && from == OsaAt(a, b, i - 1, j - 1)
    requires op.Ins? ==> j > 0 && from == OsaAt(a, b, i, j - 1)
    requires op.Del? ==> i > 0 && from == OsaAt(a, b, i - 1, j)
    requires op.Swap? ==> CrossedAt(a, b, i, j) && from == OsaAt(a, b, i - 2, j - 2)
    ensures here <= from + Price(op)
  {
  }

  lemma OsaStep(a: string, b: string, i': nat, j': nat, i: nat, j: nat, op: Op, here: nat, from: nat)
    requires LeadsTo(op, a, b, i', j', i, j)
    requires i' <= i <= |a| && j' <= j <= |b| && here == OsaAt(a, b, i, j) && from == OsaAt(a, b, i', j')
    ensures here <= from + Price(op)
  {
    hide OsaAt;
    StepCharacters(a, b, i', j', i, j, op);
    OsaReached(a, b, i, j, here, from, op);
  }

  lemma LevReached(a: string, b: string, i: nat, j: nat, here: nat, from: nat, op: Op)
    requires i <= |a| && j <= |b| && here == LevAt(a, b, i, j) && !op.Swap?
    requires op.Keep? ==> i > 0 && j > 0 && a[i - 1] == b[j - 1] && from == LevAt(a, b, i - 1, j - 1)
    requires op.Sub? ==> i > 0 && j > 0 && from == LevAt(a, b, i - 1, j - 1)
    requires op.Ins? ==> j > 0 && from == LevAt(a, b, i, j - 1)
    requires op.Del? ==> i > 0 && from == LevAt(a, b, i - 1, j)
    ensures here <= from + Price(op)
  {
  }

  lemma LevStep(a: string, b: string, i': nat, j': nat, i: nat, j: nat, op: Op, here: nat, from: nat)
    requires LeadsTo(op, a, b, i', j', i, j) && !op.Swap?
    requires i' <= i <= |a| && j' <= j <= |b| && here == LevAt(a, b, i, j) && from == LevAt(a, b, i', j')
    ensures here <= from + Price(op)
  {
    hide LevAt;
    StepCharacters(a, b, i', j', i, j, op);
    LevReached(a, b, i, j, here, from, op);
  }

  lemma {:induction false} OsaBelowScript(script: Script, a: string, b: string, i: nat, j: nat)
    requires i <= |a| && j <= |b| && Edits(script, a[..i], b[..j])
    ensures OsaAt(a, b, i, j) <= Cost(script)
    decreases |script|
  {
    if script == [] {
      assert |a[..i]| == 0 && |b[..j]| == 0;
    } else {
      var i', j' := DropOp(script, a, b, i, j);
      OsaBelowScript(script[..|script| - 1], a, b, i', j');
      OsaStep(a, b, i', j', i, j, script[|script| - 1], OsaAt(a, b, i, j), OsaAt(a, b, i', j'));
    }
  }

  lemma {:induction false} LevBelowScript(script: Script, a: string, b: string, i: nat, j: nat)
    requires i <= |a| && j <= |b| && Edits(script, a[..i], b[..j]) && SwapFree(script)
    ensures LevAt(a, b, i, j) <= Cost(script)
    decreases |script|
  {
    if script == [] {
      assert |a[..i]| == 0 && |b[..j]| == 0;
    } else {
      var i', j' := DropOp(script, a, b, i, j);
      LevBelowScript(script[..|script| - 1], a, b, i', j');
      LevStep(a, b, i', j', i, j, script[|script| - 1], LevAt(a, b, i, j), LevAt(a, b, i', j'));
    }
  }

  // `value` is what the table holds at (i, j).
  ghost predicate Holds(a: string, b: string, i: int, j: int, value: nat) {
    0 <= i <= |a| && 0 <= j <= |b| && value == OsaAt(a, b, i, j)
  }

  // An operation through which the table reaches a cell.
  lemma OsaChoice(a: string, b: string, i: nat, j: nat, here: nat) returns (op: Op, from: nat)
    requires i + j > 0 && Holds(a, b, i, j, here)
    ensures here == from + Price(op)
    ensures Holds(a, b, i - |SourceOf(op)|, j - |TargetOf(op)|, from)
    ensures LeadsTo(op, a, b, i - |SourceOf(op)|, j - |TargetOf(op)|, i, j)
  {
    hide OsaAt;
    if i == 0 || j == 0 {
      op, from := OsaBorderChoice(a, b, i, j, here);
    } else {
      var up, left, diagonal := OsaAt(a, b, i - 1, j), OsaAt(a, b, i, j - 1), OsaAt(a, b, i - 1, j - 1);
      op, from := OsaInnerChoice(a, b, i, j, here, up, left, diagonal);
      OpLeads(op, a, b, i, j);
    }
  }

  lemma OsaBorderChoice(a: string, b: string, i: nat, j: nat, here: nat) returns (op: Op, from: nat)
    requires (i == 0) != (j == 0) && Holds(a, b, i, j, here)
    ensures here == from + Price(op)
    ensures Holds(a, b, i - |SourceOf(op)|, j - |TargetOf(op)|, from)
    ensures LeadsTo(op, a, b, i - |SourceOf(op)|, j - |TargetOf(op)|, i, j)
  {
    if i == 0 {
      op, from := Ins(b[j - 1]), j - 1;
    } else {
      op, from := Del(a[i - 1]), i - 1;
    }
  }

  lemma OpLeads(op: Op, a: string, b: string, i: nat, j: nat)
    requires 0 < i <= |a| && 0 < j <= |b|
    requires op.Ins? ==> op.d == b[j - 1]
    requires op.Del? ==> op.c == a[i - 1]
    requires op.Sub? ==> op.c == a[i - 1] && op.d == b[j - 1]
    requires op.Keep? ==> op.c == a[i - 1] == b[j - 1]
    requires op.Swap? ==> CrossedAt(a, b, i, j) && op.c == a[i - 2] && op.d == a[i - 1]
    ensures LeadsTo(op, a, b, i - |SourceOf(op)|, j - |TargetOf(op)|, i, j)
  {
  }

  lemma OsaInnerChoice(a: string, b: string, i: nat, j: nat, here: nat, up: nat, left: nat, diagonal: nat)
    returns (op: Op, from: nat)
    requires 0 < i <= |a| && 0 < j <= |b| && Holds(a, b, i, j, here)
    requires Holds(a, b, i - 1, j, up) && Holds(a, b, i, j - 1, left) && Holds(a, b, i - 1, j - 1, diagonal)
    ensures here == from + Price(op)
    ensures op.Swap? ==> CrossedAt(a, b, i, j) && Holds(a, b, i - 2, j - 2, from) && op == Swap(a[i - 2], a[i - 1])
    ensures op.Ins? ==> from == left && op == Ins(b[j - 1])
    ensures op.Del? ==> from == up && op == Del(a[i - 1])
    ensures op.Sub? ==> from == diagonal && op == Sub(a[i - 1], b[j - 1])
    ensures op.Keep? ==> from == diagonal && op == Keep(a[i - 1]) && a[i - 1] == b[j - 1]
  {
    if here == left + 1 {
      op, from := Ins(b[j - 1]), left;
    } else if here == up + 1 {
      op, from := Del(a[i - 1]), up;
    } else if here == diagonal + if a[i - 1] == b[j - 1] then 0 else 1 {
      op, from := if a[i - 1] == b[j - 1] then Keep(a[i - 1]) else Sub(a[i - 1], b[j - 1]), diagonal;
    } else {
      op, from := Swap(a[i - 2], a[i - 1]), OsaAt(a, b, i - 2, j - 2);
    }
  }

  lemma LevCell(a: string, b: string, i: nat, j: nat)
    requires 0 < i <= |a| && 0 < j <= |b|
    ensures LevAt(a, b, i, j) ==
      Cheapest(LevAt(a, b, i - 1, j), LevAt(a, b, i, j - 1), LevAt(a, b, i - 1, j - 1), a[i - 1] == b[j - 1])
  {
  }

  lemma LevBorder(a: string, b: string, i: nat, j: nat)
    requires i <= |a| && j <= |b| && (i == 0 || j == 0)
    ensures LevAt(a, b, i, j) == i + j
  {
  }

  lemma BorderLeads(a: string, b: string, i: nat, j: nat)
    requires i <= |a| && j <= |b|
    ensures j > 0 ==> LeadsTo(Ins(b[j - 1]), a, b, i, j - 1, i, j)
    ensures i > 0 ==> LeadsTo(Del(a[i - 1]), a, b, i - 1, j, i, j)
  {
    hide MatchesAt;
    NoneAt(a, i);
    NoneAt(b, j);
    if j > 0 { OneAt(b, j - 1); }
    if i > 0 { OneAt(a, i - 1); }
  }

  // An insertion, deletion, substitution or match through which the table reaches a cell.
  lemma LevChoice(a: string, b: string, i: nat, j: nat) returns (op: Op, i': nat, j': nat)
    requires i <= |a| && j <= |b| && i + j > 0
    ensures i' <= i && j' <= j && i' + j' < i + j && !op.Swap?
    ensures LeadsTo(op, a, b, i', j', i, j)
    ensures LevAt(a, b, i, j) == LevAt(a, b, i', j') + Price(op)
  {
    hide LevAt, LeadsTo;
    BorderLeads(a, b, i, j);
    if i == 0 {
      LevBorder(a, b, i, j);
      LevBorder(a, b, i, j - 1);
      op, i', j' := Ins(b[j - 1]), i, j - 1;
    } else if j == 0 {
      LevBorder(a, b, i, j);
      LevBorder(a, b, i - 1, j);
      op, i', j' := Del(a[i - 1]), i - 1, j;
    } else {
      LevCell(a, b, i, j);
      if LevAt(a, b, i, j) == LevAt(a, b, i, j - 1) + 1 {
        op, i', j' := Ins(b[j - 1]), i, j - 1;
      } else if LevAt(a, b, i, j) == LevAt(a, b, i - 1, j) + 1 {
        op, i', j' := Del(a[i - 1]), i - 1, j;
      } else {
        op, i', j' := if a[i - 1] == b[j - 1] then Keep(a[i - 1]) else Sub(a[i - 1], b[j - 1]), i - 1, j - 1;
        OpLeads(op, a, b, i, j);
        OneEach(op);
      }
    }
  }

  lemma OneEach(op: Op)
    requires op.Keep? || op.Sub?
    ensures |SourceOf(op)| == |TargetOf(op)| == 1
  {
  }

  lemma AppendEdit(script: Script, op: Op, a: string, b: string, i': nat, j': nat, i: nat, j: nat)
    requires i' <= i <= |a| && j' <= j <= |b|
    requires Edits(script, a[..i'], b[..j']) && LeadsTo(op, a, b, i', j', i, j)
    ensures Edits(script + [op], a[..i], b[..j])
    ensures Cost(script + [op]) == Cost(script) + Price(op)
  {
    AppendOp(script, op);
    PrefixGrows(a, i', SourceOf(op));
    PrefixGrows(b, j', TargetOf(op));
  }

  lemma NoScript(a: string, b: string)
    ensures Edits([], a[..0], b[..0]) && Cost([]) == 0 && OsaAt(a, b, 0, 0) == LevAt(a, b, 0, 0) == 0
  {
  }

  lemma StepsDown(op: Op, a: string, b: string, i': int, j': int, i: nat, j: nat)
    requires 0 <= i' && 0 <= j' && LeadsTo(op, a, b, i', j', i, j)
    ensures i' <= i && j' <= j && i' + j' < i + j
  {
  }

  lemma {:induction false} OsaScript(a: string, b: string, i: nat, j: nat) returns (script: Script)
    requires i <= |a| && j <= |b|
    ensures Edits(script, a[..i], b[..j]) && Cost(script) == OsaAt(a, b, i, j)
    decreases i + j
  {
    hide OsaAt, LevAt, Edits, Cost, LeadsTo, Price, SourceOf, TargetOf;
    NoScript(a, b);
    script := [];
    if i + j > 0 {
      var op, from := OsaChoice(a, b, i, j, OsaAt(a, b, i, j));
      var i', j' := i - |SourceOf(op)|, j - |TargetOf(op)|;
      StepsDown(op, a, b, i', j', i, j);
      script := OsaScript(a, b, i', j');
      AppendEdit(script, op, a, b, i', j', i, j);
      script := script + [op];
    }
  }

  lemma SwapFreeStep(script: Script, op: Op)
    requires SwapFree(script) && !op.Swap?
    ensures SwapFree(script + [op])
  {
  }

  lemma {:induction false} LevScript(a: string, b: string, i: nat, j: nat) returns (script: Script)
    requires i <= |a| && j <= |b|
    ensures Edits(script, a[..i], b[..j]) && Cost(script) == LevAt(a, b, i, j) && SwapFree(script)
    decreases i + j
  {
    hide OsaAt, LevAt, Edits, Cost, LeadsTo, Price;
    NoScript(a, b);
    script := [];
    if i + j > 0 {
      var op, i', j' := LevChoice(a, b, i, j);
      script := LevScript(a, b, i', j');
      AppendEdit(script, op, a, b, i', j', i, j);
      SwapFreeStep(script, op);
      script := script + [op];
    }
  }

  lemma Whole(s: string)
    ensures s[..|s|] == s
  {
  }

  lemma BestOsaScript(a: string, b: string) returns (script: Script)
    ensures Edits(script, a, b) && Cost(script) == Osa(a, b)
  {
    script := OsaScript(a, b, |a|, |b|);
    Whole(a);
    Whole(b);
  }

  lemma BestLevScript(a: string, b: string) returns (script: Script)
    ensures Edits(script, a, b) && Cost(script) == Lev(a, b) && SwapFree(script)
  {
    script := LevScript(a, b, |a|, |b|);
    Whole(a);
    Whole(b);
  }

  lemma OsaBelow(script: Script)
    ensures Osa(Source(script), Target(script)) <= Cost(script)
  {
    var a, b := Source(script), Target(script);
    Whole(a);
    Whole(b);
    OsaBelowScript(script, a, b, |a|, |b|);
  }

  lemma LevBelow(script: Script)
    requires SwapFree(script)
    ensures Lev(Source(script), Target(script)) <= Cost(script)
  {
    var a, b := Source(script), Target(script);
    Whole(a);
    Whole(b);
    LevBelowScript(script, a, b, |a|, |b|);
  }

  // The least cost of an insert/delete/substitute script.
  lemma LevIsCheapest(a: string, b: string, limit: nat)
    ensures Lev(a, b) <= limit <==> exists script :: Edits(script, a, b) && SwapFree(script) && Cost(script) <= limit
  {
    if Lev(a, b) <= limit {
      var script := BestLevScript(a, b);
    }
    if script :| Edits(script, a, b) && SwapFree(script) && Cost(script) <= limit {
      LevBelow(script);
    }
  }

  // The least cost of a script that may also transpose neighbours.
  lemma OsaIsCheapest(a: string, b: string, limit: nat)
    ensures Osa(a, b) <= limit <==> exists script :: Edits(script, a, b) && Cost(script) <= limit
  {
    if Osa(a, b) <= limit {
      var script := BestOsaScript(a, b);
    }
    if script :| Edits(script, a, b) && Cost(script) <= limit {
      OsaBelow(script);
    }
  }

  // ----- symmetry, identity and range

  function InverseOp(op: Op): Op {
    match op
    case Keep(c) => Keep(c)
    case Sub(c, d) => Sub(d, c)
    case Ins(d) => Del(d)
    case Del(c) => Ins(c)
    case Swap(c, d) => Swap(d, c)
  }

  function Inverse(script: Script): (inverse: Script)
    ensures |inverse| == |script|
    ensures forall k | 0 <= k < |script| :: inverse[k] == InverseOp(script[k])
  {
    seq(|script|, k requires 0 <= k < |script| => InverseOp(script[k]))
  }

  lemma InverseOpEnds(op: Op)
    ensures SourceOf(InverseOp(op)) == TargetOf(op) && TargetOf(InverseOp(op)) == SourceOf(op)
    ensures Price(InverseOp(op)) == Price(op)
  {
  }

  lemma {:induction false} InverseEdits(script: Script)
    ensures Edits(Inverse(script), Target(script), Source(script)) && Cost(Inverse(script)) == Cost(script)
  {
    hide Source, Target, Cost, InverseOp, SourceOf, TargetOf, Price;
    NoOps();
    if script == [] {
      assert Inverse(script) == [];
    } else {
      var n := |script| - 1;
      InverseEdits(script[..n]);
      LastOp(script);
      LastOp(Inverse(script));
      assert Inverse(script)[..n] == Inverse(script[..n]);
      InverseOpEnds(script[n]);
    }
  }

  lemma OsaSymmetric(a: string, b: string)
    ensures Osa(a, b) == Osa(b, a)
  {
    var ab := BestOsaScript(a, b);
    var ba := BestOsaScript(b, a);
    InverseEdits(ab);
    InverseEdits(ba);
    OsaBelow(Inverse(ab));
    OsaBelow(Inverse(ba));
  }

  lemma {:induction false} FreeScriptKeeps(script: Script)
    requires Cost(script) == 0
    ensures Source(script) == Target(script)
  {
    if script != [] { FreeScriptKeeps(script[..|script| - 1]); }
  }

  lemma {:induction false} OsaToItself(a: string, i: nat)
    requires i <= |a|
    ensures OsaAt(a, a, i, i) == 0
  {
    if i > 0 { OsaToItself(a, i - 1); }
  }

  lemma OsaZeroIffEqual(a: string, b: string)
    ensures Osa(a, b) == 0 <==> a == b
  {
    if Osa(a, b) == 0 {
      var script := BestOsaScript(a, b);
      FreeScriptKeeps(script);
    }
    if a == b {
      OsaToItself(a, |a|);
    }
  }

  lemma {:induction false} OsaAtMostLonger(a: string, b: string, i: nat, j: nat)
    requires i <= |a| && j <= |b|
    ensures OsaAt(a, b, i, j) <= Max(i, j)
    decreases i + j
  {
    if i > 0 && j > 0 { OsaAtMostLonger(a, b, i - 1, j - 1); }
  }

  lemma {:induction false} LevAtLeastLengthGap(a: string, b: string, i: nat, j: nat)
    requires i <= |a| && j <= |b|
    ensures i <= LevAt(a, b, i, j) + j && j <= LevAt(a, b, i, j) + i
    decreases i + j
  {
    hide LevAt;
    if i == 0 || j == 0 {
      LevBorder(a, b, i, j);
    } else {
      LevCell(a, b, i, j);
      LevAtLeastLengthGap(a, b, i - 1, j);
      LevAtLeastLengthGap(a, b, i, j - 1);
      LevAtLeastLengthGap(a, b, i - 1, j - 1);
    }
  }

  // ----- edit_distance_le2

  // Row i of the table, up to column j.
  ghost predicate IsLevRow(a: string, b: string, i: nat, row: seq<nat>, j: nat)
    requires i <= |a| && j <= |b|
  {
    |row| == |b| + 1 && forall k | 0 <= k <= j :: row[k] == LevAt(a, b, i, k)
  }

  ghost predicate RowAbove(a: string, b: string, i: nat, low: nat)
    requires i <= |a|
  {
    forall j | 0 <= j <= |b| :: LevAt(a, b, i, j) >= low
  }

  // The minimum of a row never falls from one row to the next.
  lemma {:induction false} RowMinimumGrows(a: string, b: string, i: nat, low: nat, j: nat)
    requires i < |a| && j <= |b| && RowAbove(a, b, i, low)
    ensures LevAt(a, b, i + 1, j) >= low
  {
    if j > 0 {
      RowMinimumGrows(a, b, i, low, j - 1);
      assert LevAt(a, b, i, j) >= low && LevAt(a, b, i, j - 1) >= low;
    } else {
      assert LevAt(a, b, i, 0) >= low;
    }
  }

  lemma {:induction false} AbortIsSound(a: string, b: string, i: nat, low: nat)
    requires i <= |a| && RowAbove(a, b, i, low)
    ensures Lev(a, b) >= low
    decreases |a| - i
  {
    if i < |a| {
      var next := i + 1;
      forall j | 0 <= j <= |b| ensures LevAt(a, b, next, j) >= low {
        RowMinimumGrows(a, b, i, low, j);
      }
      AbortIsSound(a, b, i + 1, low);
    }
  }

  // One row of the table and its minimum.
  method LevRow(a: string, b: string, i: nat, prev: seq<nat>) returns (cur: seq<nat>, rowMin: nat)
    requires i < |a| && IsLevRow(a, b, i, prev, |b|)
    ensures IsLevRow(a, b, i + 1, cur, |b|)
    ensures RowAbove(a, b, i + 1, rowMin)
  {
    hide LevAt;
    ghost var next := i + 1;
    LevBorder(a, b, i + 1, 0);
    cur := [i + 1] + seq(|b|, _ => 0);
    rowMin := i + 1;
    for j := 0 to |b|
      invariant IsLevRow(a, b, i + 1, cur, j)
      invariant forall k | 0 <= k <= j :: LevAt(a, b, next, k) >= rowMin
    {
      var cost := if a[i] == b[j] then 0 else 1;
      cur := cur[j + 1 := Min(Min(prev[j + 1] + 1, cur[j] + 1), prev[j] + cost)];
      LevCell(a, b, i + 1, j + 1);
      rowMin := Min(rowMin, cur[j + 1]);
    }
  }

  lemma FirstLevRow(a: string, b: string)
    ensures IsLevRow(a, b, 0, seq(|b| + 1, j => j), |b|)
  {
  }

  // `edit_distance_le2`: with the length shortcut and the early abort.
  method EditDistanceLe2(a: string, b: string) returns (near: bool)
    ensures near <==> Lev(a, b) <= 2
    ensures near <==> exists script :: Edits(script, a, b) && SwapFree(script) && Cost(script) <= 2
  {
    hide LevAt, Edits, Cost;
    LevIsCheapest(a, b, 2);
    LevAtLeastLengthGap(a, b, |a|, |b|);
    FirstLevRow(a, b);
    if |a| > |b| + 2 || |b| > |a| + 2 {
      return false;
    }
    var prev: seq<nat> := seq(|b| + 1, j => j);
    for i := 0 to |a|
      invariant IsLevRow(a, b, i, prev, |b|)
    {
      var cur, rowMin := LevRow(a, b, i, prev);
      if rowMin > 2 {
        AbortIsSound(a, b, i + 1, rowMin);
        return false;
      }
      prev := cur;
    }
    near := prev[|prev| - 1] <= 2;
  }

  // ----- damerau_similarity

  ghost predicate IsOsaRow(a: string, b: string, i: nat, row: seq<nat>)
    requires i <= |a|
  {
    1 <= |row| <= |b| + 1 && forall k {:trigger row[k]} | 0 <= k < |row| :: Holds(a, b, i, k, row[k])
  }

  lemma OsaCell(a: string, b: string, i: nat, j: nat, up: nat, left: nat, diagonal: nat, crossed: nat, here: nat)
    requires i < |a| && j < |b| && here == OsaAt(a, b, i + 1, j + 1)
    requires up == OsaAt(a, b, i, j + 1) && left == OsaAt(a, b, i + 1, j) && diagonal == OsaAt(a, b, i, j)
    requires i >= 1 && j >= 1 ==> crossed == OsaAt(a, b, i - 1, j - 1)
    ensures var plain := Cheapest(up, left, diagonal, a[i] == b[j]);
      here == if i >= 1 && j >= 1 && a[i] == b[j - 1] && a[i - 1] == b[j] then Min(plain, crossed + 1) else plain
  {
  }

  lemma OsaBorder(a: string, b: string, i: nat)
    requires i <= |a|
    ensures OsaAt(a, b, i, 0) == i
  {
  }

  // `prev2` is the row before `prev`, once there is one.
  method OsaRow(a: string, b: string, i: nat, prev2: seq<nat>, prev: seq<nat>)
    returns (current: seq<nat>, operations: nat)
    requires i < |a| && IsOsaRow(a, b, i, prev) && |prev| == |b| + 1
    requires i >= 1 ==> IsOsaRow(a, b, i - 1, prev2) && |prev2| == |b| + 1
    ensures IsOsaRow(a, b, i + 1, current) && |current| == |b| + 1
    ensures operations == 8 * |b|
  {
    hide OsaAt;
    OsaBorder(a, b, i + 1);
    current, operations := [i + 1], 0;
    for j := 0 to |b|
      invariant IsOsaRow(a, b, i + 1, current) && |current| == j + 1
      invariant operations == 8 * j
    {
      var value := Min(Min(current[j] + 1, prev[j + 1] + 1), prev[j] + if a[i] != b[j] then 1 else 0);
      if i >= 1 && j >= 1 && a[i] == b[j - 1] && a[i - 1] == b[j] {
        value := Min(value, prev2[j - 1] + 1);
      }
      OsaCell(a, b, i, j, prev[j + 1], current[j], prev[j], if i >= 1 && j >= 1 then prev2[j - 1] else 0,
              OsaAt(a, b, i + 1, j + 1));
      current := current + [value];
      operations := operations + 8;
    }
  }

  // The similarity score, on every pair of strings.
  function Similarity(a: string, b: string): real {
    if a == b then 1.0 else 1.0 - Osa(a, b) as real / Max(|a|, |b|) as real
  }

  lemma QuotientTimes(x: nat, n: nat)
    requires n > 0
    ensures x as real / n as real * n as real == x as real
  {
  }

  // What is missing from a similarity of one, times the longer length, is the least cost of a script.
  ghost predicate MeasuresEdits(a: string, b: string, similarity: real) {
    var cost := (1.0 - similarity) * Max(|a|, |b|) as real;
    && (exists script :: Edits(script, a, b) && Cost(script) as real == cost)
    && (forall script :: Edits(script, a, b) ==> Cost(script) as real >= cost)
  }

  lemma SimilarityMeans(a: string, b: string)
    ensures MeasuresEdits(a, b, Similarity(a, b))
  {
    hide Edits, Cost, OsaAt;
    OsaZeroIffEqual(a, b);
    if a != b {
      QuotientTimes(Osa(a, b), Max(|a|, |b|));
    }
    var best := BestOsaScript(a, b);
    forall script | Edits(script, a, b) ensures Cost(script) >= Osa(a, b) {
      OsaIsCheapest(a, b, Cost(script));
    }
  }

  // The first row and column of the table.
  lemma OsaBorders(a: string, b: string)
    ensures IsOsaRow(a, b, 0, seq(|b| + 1, j => j))
    ensures a == [] || b == [] ==> Osa(a, b) == Max(|a|, |b|)
  {
  }

  // `damerau_similarity`, with its scalar-operation estimate.
  method DamerauSimilarity(left: string, right: string) returns (similarity: real, operations: nat)
    ensures similarity == Similarity(left, right)
    ensures MeasuresEdits(left, right, similarity)
    ensures left == right || left == [] || right == [] ==> operations == 1
    ensures left != right && left != [] && right != [] ==> operations == |right| + 1 + 8 * |left| * |right|
  {
    hide MeasuresEdits, OsaAt;
    SimilarityMeans(left, right);
    OsaBorders(left, right);
    if left == right {
      return 1.0, 1;
    }
    if left == [] || right == [] {
      WholeOverWhole(Max(|left|, |right|));
      return 0.0, 1;
    }
    var prev2: seq<nat> := [];
    var prev: seq<nat> := seq(|right| + 1, j => j);
    operations := |right| + 1;
    for i := 0 to |left|
      invariant IsOsaRow(left, right, i, prev) && |prev| == |right| + 1
      invariant i >= 1 ==> IsOsaRow(left, right, i - 1, prev2) && |prev2| == |right| + 1
      invariant operations == |right| + 1 + 8 * i * |right|
    {
      var current, added := OsaRow(left, right, i, prev2, prev);
      operations := operations + added;
      NextRowOperations(i, |right|);
      prev2, prev := prev, current;
    }
    similarity := 1.0 - prev[|prev| - 1] as real / Max(|left|, |right|) as real;
  }

  lemma NextRowOperations(i: nat, n: nat)
    ensures 8 * (i + 1) * n == 8 * i * n + 8 * n
  {
  }

  lemma WholeOverWhole(n: nat)
    requires n > 0
    ensures n as real / n as real == 1.0
  {
  }

  // A symmetric score in [0, 1] that is 1 exactly for equal strings.
  lemma SimilarityIsScore(a: string, b: string)
    ensures 0.0 <= Similarity(a, b) <= 1.0
    ensures Similarity(a, b) == 1.0 <==> a == b
    ensures Similarity(a, b) == Similarity(b, a)
  {
    OsaSymmetric(a, b);
    OsaZeroIffEqual(a, b);
    OsaAtMostLonger(a, b, |a|, |b|);
    if a != b {
      RatioInUnit(Osa(a, b), Max(|a|, |b|));
    }
  }
}
