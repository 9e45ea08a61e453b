// The stratified query selection: categories take turns until the limit or their end.
module RoundRobin {
  import opened CaseIds
  import opened Sorting
  import opened Wrappers

  // `category` is the first of the case's categories; `eligible` says that the case is held out and has an outcome.
  datatype EdgeCase = EdgeCase(id: string, category: string, eligible: bool)

  // ----- queues

  function Eligible(cases: seq<EdgeCase>): seq<EdgeCase> {
    if cases == [] then []
    else Eligible(cases[..|cases| - 1]) + if cases[|cases| - 1].eligible then [cases[|cases| - 1]] else []
  }

  function Categories(cases: seq<EdgeCase>): (categories: seq<string>)
    ensures |categories| == |cases|
  {
    seq(|cases|, k requires 0 <= k < |cases| => cases[k].category)
  }

  // The category names in use, in sorted order.
  function Names(cases: seq<EdgeCase>): seq<string> { Sort(Distinct(Categories(cases)), Le) }

  function QueueOf(cases: seq<EdgeCase>, name: string): seq<EdgeCase> {
    if cases == [] then []
    else
      var last := cases[|cases| - 1];
      QueueOf(cases[..|cases| - 1], name) + if last.category == name then [last] else []
  }

  function Queues(cases: seq<EdgeCase>, names: seq<string>): (queues: seq<seq<EdgeCase>>)
    ensures |queues| == |names| && forall c | 0 <= c < |names| :: queues[c] == QueueOf(cases, names[c])
  {
    seq(|names|, c requires 0 <= c < |names| => QueueOf(cases, names[c]))
  }

  lemma {:induction false} EligibleSelects(cases: seq<EdgeCase>) returns (places: seq<nat>)
    ensures Selects(cases, Eligible(cases), (c: EdgeCase) => c.eligible, places)
  {
    if cases == [] {
      places := [];
    } else {
      var n := |cases| - 1;
      places := EligibleSelects(cases[..n]);
      SelectsNext(cases[..n], Eligible(cases[..n]), (c: EdgeCase) => c.eligible, places, cases[n]);
      assert cases == cases[..n] + [cases[n]];
      assert !cases[n].eligible ==> Eligible(cases) == Eligible(cases[..n]);
      places := if cases[n].eligible then places + [n] else places;
    }
  }

  // A queue holds the cases of its category in the order of the list.
  lemma {:induction false} QueueSelects(cases: seq<EdgeCase>, name: string) returns (places: seq<nat>)
    ensures Selects(cases, QueueOf(cases, name), (c: EdgeCase) => c.category == name, places)
  {
    if cases == [] {
      places := [];
    } else {
      var n := |cases| - 1;
      places := QueueSelects(cases[..n], name);
      SelectsNext(cases[..n], QueueOf(cases[..n], name), (c: EdgeCase) => c.category == name, places, cases[n]);
      assert cases == cases[..n] + [cases[n]];
      assert cases[n].category != name ==> QueueOf(cases, name) == QueueOf(cases[..n], name);
      places := if cases[n].category == name then places + [n] else places;
    }
  }

  // The names are the categories in use, once each and in order.
  lemma NamesMean(cases: seq<EdgeCase>)
    ensures Ordered(Names(cases), Le) && NoRepeats(Names(cases))
    ensures forall name :: name in Names(cases) <==> exists k :: 0 <= k < |cases| && cases[k].category == name
  {
    var categories := Categories(cases);
    LeIsTotalPreorder();
    SortOrdered(Distinct(categories), Le);
    RearrangedNoRepeats(Distinct(categories), Names(cases));
    forall name ensures name in Names(cases) <==> exists k :: 0 <= k < |cases| && cases[k].category == name {
      assert name in Names(cases) <==> name in multiset(Names(cases));
      assert name in Distinct(categories) <==> name in multiset(Distinct(categories));
      assert name in categories <==> exists k :: 0 <= k < |categories| && categories[k] == name;
      if k :| 0 <= k < |cases| && cases[k].category == name {
        assert categories[k] == name;
      }
    }
  }

  // ----- the order of turns

  // What the first `c` queues give in round `r`.
  function Row<T>(queues: seq<seq<T>>, r: nat, c: nat): seq<T>
    requires c <= |queues|
  {
    if c == 0 then [] else Row(queues, r, c - 1) + if r < |queues[c - 1]| then [queues[c - 1][r]] else []
  }

  function Rounds<T>(queues: seq<seq<T>>, r: nat): seq<T> {
    if r == 0 then [] else Rounds(queues, r - 1) + Row(queues, r - 1, |queues|)
  }

  // `r` whole rounds and the first `c` turns of the next.
  function Turns<T>(queues: seq<seq<T>>, r: nat, c: nat): seq<T>
    requires c <= |queues|
  {
    Rounds(queues, r) + Row(queues, r, c)
  }

  // How much of queue `d` those turns take.
  function Taken<T>(queues: seq<seq<T>>, r: nat, c: nat, d: nat): (n: nat)
    requires d < |queues|
    ensures n <= |queues[d]|
  {
    var turns := if d < c then r + 1 else r;
    if turns < |queues[d]| then turns else |queues[d]|
  }

  function Prefixes<T>(queues: seq<seq<T>>, r: nat, c: nat): (parts: seq<seq<T>>)
    ensures |parts| == |queues|
    ensures forall d | 0 <= d < |queues| :: parts[d] == queues[d][..Taken(queues, r, c, d)]
  {
    seq(|queues|, d requires 0 <= d < |queues| => queues[d][..Taken(queues, r, c, d)])
  }

  function Turn<T>(queues: seq<seq<T>>, r: nat, d: nat): seq<T>
    requires d < |queues|
  {
    if r < |queues[d]| then [queues[d][r]] else []
  }

  lemma NextTurn<T>(queues: seq<seq<T>>, r: nat, d: nat, before: seq<seq<T>>)
    requires d < |queues| && before == Prefixes(queues, r, d)
    ensures Turns(queues, r, d + 1) == Turns(queues, r, d) + Turn(queues, r, d)
    ensures Prefixes(queues, r, d + 1) == before[d := before[d] + Turn(queues, r, d)]
  {
    NextPrefix(queues, r, d);
    Associate(Rounds(queues, r), Row(queues, r, d), Turn(queues, r, d));
    forall e | 0 <= e < |queues| && e != d ensures Taken(queues, r, d + 1, e) == Taken(queues, r, d, e) {
    }
  }

  lemma NextPrefix<T>(queues: seq<seq<T>>, r: nat, d: nat)
    requires d < |queues|
    ensures queues[d][..Taken(queues, r, d + 1, d)] == queues[d][..Taken(queues, r, d, d)] + Turn(queues, r, d)
  {
  }

  lemma NextRound<T>(queues: seq<seq<T>>, r: nat)
    ensures Turns(queues, r + 1, 0) == Turns(queues, r, |queues|)
    ensures Prefixes(queues, r + 1, 0) == Prefixes(queues, r, |queues|)
  {
    forall d | 0 <= d < |queues| ensures Taken(queues, r + 1, 0, d) == Taken(queues, r, |queues|, d) {
    }
  }

  lemma NoTurns<T>(queues: seq<seq<T>>)
    ensures Turns(queues, 0, 0) == [] && Flatten(Prefixes(queues, 0, 0)) == []
  {
    FlattenEmpties(Prefixes(queues, 0, 0));
  }

  // The turns take a prefix of every queue.
  lemma {:induction false} TurnsTakePrefixes<T>(queues: seq<seq<T>>, r: nat, c: nat)
    requires c <= |queues|
    ensures multiset(Turns(queues, r, c)) == multiset(Flatten(Prefixes(queues, r, c)))
    decreases r, c
  {
    hide Turns, Prefixes, Turn, Flatten;
    if c > 0 {
      var d, before := c - 1, Prefixes(queues, r, c - 1);
      TurnsTakePrefixes(queues, r, d);
      NextTurn(queues, r, d, before);
      FlattenExtend(before, d, Turn(queues, r, d));
    } else if r > 0 {
      TurnsTakePrefixes(queues, r - 1, |queues|);
      NextRound(queues, r - 1);
    } else {
      NoTurns(queues);
    }
  }

  lemma {:induction false} TurnsExtend<T>(queues: seq<seq<T>>, r: nat, c: nat, later: nat, end: nat)
    requires c <= |queues| && end <= |queues| && (r < later || (r == later && c <= end))
    ensures Turns(queues, r, c) <= Turns(queues, later, end)
    decreases later, end
  {
    hide Turns;
    if r < later || c < end {
      if end == 0 {
        TurnsExtend(queues, r, c, later - 1, |queues|);
        NextRound(queues, later - 1);
      } else {
        TurnsExtend(queues, r, c, later, end - 1);
        NextTurn(queues, later, end - 1, Prefixes(queues, later, end - 1));
      }
    }
  }

  // What queue c gives in round r stands behind exactly what the turns before gave.
  lemma TurnsInOrder<T>(queues: seq<seq<T>>, r: nat, c: nat, later: nat, end: nat)
    requires c < |queues| && r < |queues[c]| && end <= |queues| && (r < later || (r == later && c < end))
    ensures var place := |Flatten(Prefixes(queues, r, c))|;
      place < |Turns(queues, later, end)| && Turns(queues, later, end)[place] == queues[c][r]
  {
    hide Turns, Flatten, Prefixes;
    TurnsTakePrefixes(queues, r, c);
    SameSize(Turns(queues, r, c), Flatten(Prefixes(queues, r, c)));
    NextTurn(queues, r, c, Prefixes(queues, r, c));
    TurnsExtend(queues, r, c + 1, later, end);
    assert Turns(queues, r, c + 1)[|Turns(queues, r, c)|] == queues[c][r];
  }

  // A queue that is not exhausted is at most one turn behind any other, and behind none that comes after it.
  lemma TurnsAreFair<T>(queues: seq<seq<T>>, r: nat, c: nat, d: nat, e: nat)
    requires c <= |queues| && d < |queues| && e < |queues|
    requires Taken(queues, r, c, d) < |queues[d]|
    ensures Taken(queues, r, c, e) <= Taken(queues, r, c, d) + 1
    ensures e > d ==> Taken(queues, r, c, e) <= Taken(queues, r, c, d)
  {
  }

  // ----- the loop

  // The queues as the turns so far have left them.
  ghost predicate Left<T>(queues: seq<seq<T>>, left: seq<seq<T>>, r: nat, c: nat) {
    |left| == |queues| && forall d | 0 <= d < |queues| :: left[d] == queues[d][Taken(queues, r, c, d)..]
  }

  lemma TurnTaken<T>(queues: seq<seq<T>>, left: seq<seq<T>>, r: nat, c: nat)
    requires c < |queues| && Left(queues, left, r, c)
    ensures left[c] == [] ==> Left(queues, left, r, c + 1) && Turns(queues, r, c + 1) == Turns(queues, r, c)
    ensures left[c] != [] ==> Left(queues, left[c := left[c][1..]], r, c + 1)
    ensures left[c] != [] ==> Turns(queues, r, c + 1) == Turns(queues, r, c) + [left[c][0]]
  {
    var m := c + 1;
    if left[c] == [] {
      assert Row(queues, r, m) == Row(queues, r, c);
      forall d | 0 <= d < |queues| ensures left[d] == queues[d][Taken(queues, r, m, d)..] {
      }
    } else {
      var after := left[c := left[c][1..]];
      assert left[c] == queues[c][r..];
      assert Turns(queues, r, m) == Turns(queues, r, c) + [queues[c][r]];
      forall d | 0 <= d < |queues| ensures after[d] == queues[d][Taken(queues, r, m, d)..] {
      }
    }
  }

  lemma RoundOver<T>(queues: seq<seq<T>>, left: seq<seq<T>>, r: nat)
    requires Left(queues, left, r, |queues|)
    ensures Left(queues, left, r + 1, 0) && Turns(queues, r + 1, 0) == Turns(queues, r, |queues|)
  {
    var next := r + 1;
    forall d | 0 <= d < |queues| ensures left[d] == queues[d][Taken(queues, next, 0, d)..] {
      assert Taken(queues, next, 0, d) == Taken(queues, r, |queues|, d);
    }
  }

  function Total<T>(queues: seq<seq<T>>): nat {
    if queues == [] then 0 else Total(queues[..|queues| - 1]) + |queues[|queues| - 1]|
  }

  lemma {:induction false} TotalOfPop<T>(left: seq<seq<T>>, c: nat)
    requires c < |left| && left[c] != []
    ensures Total(left[c := left[c][1..]]) == Total(left) - 1
  {
    var n, after := |left| - 1, left[c := left[c][1..]];
    if c < n {
      TotalOfPop(left[..n], c);
      assert after[..n] == left[..n][c := left[c][1..]];
    } else {
      assert after[..n] == left[..n];
    }
  }

  predicate AnyLeft<T>(left: seq<seq<T>>) { exists c | 0 <= c < |left| :: left[c] != [] }

  lemma {:induction false} NothingLeft<T>(left: seq<seq<T>>)
    ensures Total(left) == 0 <==> !AnyLeft(left)
  {
    if left != [] {
      var n := |left| - 1;
      NothingLeft(left[..n]);
      if AnyLeft(left) {
        var c :| 0 <= c < |left| && left[c] != [];
        assert c < n ==> left[..n][c] != [];
      }
      if AnyLeft(left[..n]) {
        var c :| 0 <= c < n && left[..n][c] != [];
        assert left[c] != [];
      }
    }
  }

  // Where the inner loop stands before queue `k`.
  ghost predicate Standing<T>(queues: seq<seq<T>>, r: nat, c: nat, k: nat, left: seq<seq<T>>, selected: seq<T>,
                              limit: nat) {
    && c <= k <= |left| == |queues| && (|selected| < limit ==> c == k) && |selected| <= limit
    && Left(queues, left, r, c) && selected == Turns(queues, r, c)
  }

  lemma StandingNext<T>(queues: seq<seq<T>>, r: nat, c: nat, k: nat, left: seq<seq<T>>, selected: seq<T>, limit: nat)
    requires Standing(queues, r, c, k, left, selected, limit) && k < |left|
    ensures |selected| >= limit ==> Standing(queues, r, c, k + 1, left, selected, limit)
    ensures |selected| < limit && left[k] == [] ==> Standing(queues, r, k + 1, k + 1, left, selected, limit)
    ensures |selected| < limit && left[k] != [] ==>
      Standing(queues, r, k + 1, k + 1, left[k := left[k][1..]], selected + [left[k][0]], limit)
  {
    hide Left, Turns;
    if |selected| < limit {
      TurnTaken(queues, left, r, k);
    }
  }

  // One pass of the inner loop.
  method TakeRound<T>(ghost queues: seq<seq<T>>, ghost r: nat, start: seq<seq<T>>, before: seq<T>, limit: nat)
    returns (left: seq<seq<T>>, selected: seq<T>, ghost c: nat)
    requires Standing(queues, r, 0, 0, start, before, limit) && |before| < limit && AnyLeft(start)
    ensures Standing(queues, r, c, |queues|, left, selected, limit)
    ensures Total(left) + |selected| == Total(start) + |before|
    ensures |selected| > |before|
  {
    hide Left, Turns, Total;
    left, selected, c := start, before, 0;
    for k := 0 to |start|
      invariant Standing(queues, r, c, k, left, selected, limit) && |left| == |start|
      invariant |before| <= |selected| && Total(left) + |selected| == Total(start) + |before|
      invariant |selected| == |before| ==> left == start && forall d | 0 <= d < k :: start[d] == []
    {
      StandingNext(queues, r, c, k, left, selected, limit);
      if |selected| < limit {
        c := k + 1;
        if left[k] != [] {
          TotalOfPop(left, k);
          selected := selected + [left[k][0]];
          left := left[k := left[k][1..]];
        }
      }
    }
  }

  // The selection loop: whole rounds, the last one cut where the limit is reached.
  method Select<T>(queues: seq<seq<T>>, limit: nat) returns (selected: seq<T>, ghost r: nat, ghost c: nat)
    ensures c <= |queues| && selected == Turns(queues, r, c)
    ensures |selected| == if Total(queues) < limit then Total(queues) else limit
  {
    var left := queues;
    selected, r, c := [], 0, 0;
    while |selected| < limit && AnyLeft(left)
      invariant c <= |queues| == |left| && Left(queues, left, r, c) && selected == Turns(queues, r, c)
      invariant |selected| < limit ==> c == 0
      invariant |selected| <= limit && Total(left) + |selected| == Total(queues)
      decreases Total(left)
    {
      left, selected, c := TakeRound(queues, r, left, selected, limit);
      if c == |queues| && |selected| < limit {
        RoundOver(queues, left, r);
        r, c := r + 1, 0;
      }
    }
    NothingLeft(left);
  }

  // The selection of the profiling set: a prefix of every category's cases, taken in turn.
  method SelectQueries(cases: seq<EdgeCase>, limit: int)
    returns (result: Result<seq<EdgeCase>>, ghost r: nat, ghost c: nat)
    ensures result.Raised? <==> !(8 <= limit <= 256)
    ensures result.Ok? ==>
      var chosen := Eligible(cases);
      var queues := Queues(chosen, Names(chosen));
      && c <= |queues| && result.value == Turns(queues, r, c)
      && multiset(result.value) == multiset(Flatten(Prefixes(queues, r, c)))
      && multiset(result.value) <= multiset(chosen)
      && |result.value| == if |chosen| < limit then |chosen| else limit
    ensures result.Ok? ==> forall x | x in result.value :: x in cases && x.eligible
  {
    r, c := 0, 0;
    if !(8 <= limit <= 256) {
      return Raised, r, c;
    }
    var chosen := Eligible(cases);
    var names := Names(chosen);
    var queues := Queues(chosen, names);
    var selected;
    selected, r, c := Select(queues, limit);
    TurnsTakePrefixes(queues, r, c);
    PrefixesWithin(Prefixes(queues, r, c), queues);
    QueuesHoldAll(chosen);
    SelectedAreEligible(cases, selected);
    result := Ok(selected);
  }

  lemma SelectedAreEligible(cases: seq<EdgeCase>, selected: seq<EdgeCase>)
    requires multiset(selected) <= multiset(Eligible(cases))
    ensures forall x | x in selected :: x in cases && x.eligible
  {
    var places := EligibleSelects(cases);
    forall x | x in selected ensures x in cases && x.eligible {
      assert x in multiset(selected);
      assert x in multiset(Eligible(cases));
      var i :| 0 <= i < |Eligible(cases)| && Eligible(cases)[i] == x;
      assert places[i] in places;
    }
  }

  // ----- the queues hold every eligible case once

  lemma {:induction false} PrefixesWithin<T>(parts: seq<seq<T>>, queues: seq<seq<T>>)
    requires |parts| == |queues| && forall d | 0 <= d < |queues| :: parts[d] <= queues[d]
    ensures multiset(Flatten(parts)) <= multiset(Flatten(queues))
  {
    if parts != [] {
      var n := |parts| - 1;
      PrefixesWithin(parts[..n], queues[..n]);
      assert queues[n] == parts[n] + queues[n][|parts[n]|..];
    }
  }

  lemma {:induction false} TotalIsLength<T>(queues: seq<seq<T>>)
    ensures Total(queues) == |Flatten(queues)|
  {
    if queues != [] { TotalIsLength(queues[..|queues| - 1]); }
  }

  // A further case joins the queue of its category and no other.
  lemma QueuesStep(cases: seq<EdgeCase>, names: seq<string>, c: nat)
    requires cases != [] && c < |names| && names[c] == cases[|cases| - 1].category && NoRepeats(names)
    ensures var before, last := Queues(cases[..|cases| - 1], names), cases[|cases| - 1];
      Queues(cases, names) == before[c := before[c] + [last]]
  {
    var before, after := Queues(cases[..|cases| - 1], names), Queues(cases, names);
    forall d | 0 <= d < |names|
      ensures after[d] == if d == c then before[d] + [cases[|cases| - 1]] else before[d]
    {
      assert d < c ==> names[d] != names[c];
      assert c < d ==> names[c] != names[d];
      assert before[d] + [] == before[d];
    }
  }

  lemma {:induction false} QueuesContents(cases: seq<EdgeCase>, names: seq<string>)
    requires NoRepeats(names) && forall k | 0 <= k < |cases| :: cases[k].category in names
    ensures multiset(Flatten(Queues(cases, names))) == multiset(cases)
  {
    hide Queues, Flatten;
    if cases == [] {
      NoQueues(names);
    } else {
      var n := |cases| - 1;
      QueuesContents(cases[..n], names);
      var c :| 0 <= c < |names| && names[c] == cases[n].category;
      QueuesStep(cases, names, c);
      FlattenExtend(Queues(cases[..n], names), c, [cases[n]]);
      LastCounts(cases);
    }
  }

  lemma NoQueues(names: seq<string>)
    ensures Flatten(Queues([], names)) == []
  {
    FlattenEmpties(Queues([], names));
  }

  // Every case is in a queue, once.
  lemma QueuesHoldAll(cases: seq<EdgeCase>)
    ensures multiset(Flatten(Queues(cases, Names(cases)))) == multiset(cases)
    ensures Total(Queues(cases, Names(cases))) == |cases|
  {
    var names, categories := Names(cases), Categories(cases);
    RearrangedNoRepeats(Distinct(categories), names);
    forall k | 0 <= k < |cases| ensures cases[k].category in names {
      assert categories[k] in Distinct(categories);
      assert categories[k] in multiset(names);
    }
    QueuesContents(cases, names);
    TotalIsLength(Queues(cases, names));
    var all := Flatten(Queues(cases, names));
    assert |multiset(all)| == |all| && |multiset(cases)| == |cases|;
  }
}
