// Memoised replay of parent turns: the entities a case is linked to depend on the
// entities of its declared priors, wherever those stand in the benchmark.
module Replay {
  import opened CaseIds
  import opened Conversations
  import opened Sorting
  import opened Wrappers

  type Entity = string

  // Framing and linking a question, given the entities carried over.
  type Linker = (string, seq<Entity>) -> seq<Entity>

  // ----- what replay means, without memo and without order

  // The plain recursion over the priors, cut off below depth `fuel`.
  function LinkedIn(cases: map<Id, Case>, link: Linker, id: Id, fuel: nat): Option<seq<Entity>>
    decreases fuel, 0
  {
    if fuel == 0 || id !in cases then None
    else
      match PriorsIn(cases, link, cases[id].priors, fuel - 1)
      case None => None
      case Some(entities) => Some(link(cases[id].question, Distinct(entities)))
  }

  function PriorsIn(cases: map<Id, Case>, link: Linker, priors: seq<Id>, fuel: nat): Option<seq<Entity>>
    decreases fuel, 1, |priors|
  {
    if priors == [] then Some([])
    else
      var front := PriorsIn(cases, link, priors[..|priors| - 1], fuel);
      var last := LinkedIn(cases, link, priors[|priors| - 1], fuel);
      if front.Some? && last.Some? then Some(front.value + last.value) else None
  }

  // The value of the recursion when it comes to an end, at any depth.
  ghost function Linked(cases: map<Id, Case>, link: Linker, id: Id): Option<seq<Entity>> {
    if n: nat :| LinkedIn(cases, link, id, n).Some? then LinkedIn(cases, link, id, n) else None
  }

  ghost function AllLinked(cases: map<Id, Case>, link: Linker, priors: seq<Id>): Option<seq<Entity>> {
    if priors == [] then Some([])
    else
      var front := AllLinked(cases, link, priors[..|priors| - 1]);
      var last := Linked(cases, link, priors[|priors| - 1]);
      if front.Some? && last.Some? then Some(front.value + last.value) else None
  }

  lemma {:induction false} MoreFuel(cases: map<Id, Case>, link: Linker, id: Id, n: nat, m: nat)
    requires n <= m && LinkedIn(cases, link, id, n).Some?
    ensures LinkedIn(cases, link, id, m) == LinkedIn(cases, link, id, n)
    decreases n, 0
  {
    MorePriorFuel(cases, link, cases[id].priors, n - 1, m - 1);
  }

  lemma {:induction false} MorePriorFuel(cases: map<Id, Case>, link: Linker, priors: seq<Id>, n: nat, m: nat)
    requires n <= m && PriorsIn(cases, link, priors, n).Some?
    ensures PriorsIn(cases, link, priors, m) == PriorsIn(cases, link, priors, n)
    decreases n, 1, |priors|
  {
    if priors != [] {
      MorePriorFuel(cases, link, priors[..|priors| - 1], n, m);
      MoreFuel(cases, link, priors[|priors| - 1], n, m);
    }
  }

  lemma LinkedAt(cases: map<Id, Case>, link: Linker, id: Id, n: nat)
    requires LinkedIn(cases, link, id, n).Some?
    ensures Linked(cases, link, id) == LinkedIn(cases, link, id, n)
  {
    var m: nat :| LinkedIn(cases, link, id, m).Some? && Linked(cases, link, id) == LinkedIn(cases, link, id, m);
    if n <= m {
      MoreFuel(cases, link, id, n, m);
    } else {
      MoreFuel(cases, link, id, m, n);
    }
  }

  lemma {:induction false} PriorsLinkedAt(cases: map<Id, Case>, link: Linker, priors: seq<Id>, n: nat)
    requires PriorsIn(cases, link, priors, n).Some?
    ensures AllLinked(cases, link, priors) == PriorsIn(cases, link, priors, n)
  {
    if priors != [] {
      PriorsLinkedAt(cases, link, priors[..|priors| - 1], n);
      LinkedAt(cases, link, priors[|priors| - 1], n);
    }
  }

  lemma {:induction false} EnoughFuel(cases: map<Id, Case>, link: Linker, priors: seq<Id>) returns (n: nat)
    requires AllLinked(cases, link, priors).Some?
    ensures PriorsIn(cases, link, priors, n).Some?
  {
    if priors == [] {
      n := 0;
    } else {
      var front, last := priors[..|priors| - 1], priors[|priors| - 1];
      var a := EnoughFuel(cases, link, front);
      var b: nat :| LinkedIn(cases, link, last, b).Some?;
      n := if a > b then a else b;
      MorePriorFuel(cases, link, front, a, n);
      MoreFuel(cases, link, last, b, n);
    }
  }

  // The recursive equation of the script: unknown ids raise, and otherwise the turn is
  // linked with the distinct entities of all its priors.
  lemma LinkedUnfolds(cases: map<Id, Case>, link: Linker, id: Id)
    ensures id !in cases ==> Linked(cases, link, id).None?
    ensures id in cases ==>
              var entities := AllLinked(cases, link, cases[id].priors);
              Linked(cases, link, id)
                == if entities.Some? then Some(link(cases[id].question, Distinct(entities.value))) else None
  {
    hide AllLinked, PriorsIn;
    if id in cases {
      var priors := cases[id].priors;
      if AllLinked(cases, link, priors).Some? {
        LinkedByPriors(cases, link, id);
      }
      if Linked(cases, link, id).Some? {
        var n: nat :| LinkedIn(cases, link, id, n).Some?;
        PriorsLinkedAt(cases, link, priors, n - 1);
      }
    }
  }

  lemma LinkedByPriors(cases: map<Id, Case>, link: Linker, id: Id)
    requires id in cases && AllLinked(cases, link, cases[id].priors).Some?
    ensures var entities := AllLinked(cases, link, cases[id].priors).value;
      Linked(cases, link, id) == Some(link(cases[id].question, Distinct(entities)))
  {
    hide AllLinked, PriorsIn, Linked;
    var priors := cases[id].priors;
    var n := EnoughFuel(cases, link, priors);
    PriorsLinkedAt(cases, link, priors, n);
    LinkedAt(cases, link, id, n + 1);
  }

  lemma AllLinkedNext(cases: map<Id, Case>, link: Linker, priors: seq<Id>, k: nat)
    requires k < |priors|
    ensures var front, last := AllLinked(cases, link, priors[..k]), Linked(cases, link, priors[k]);
      AllLinked(cases, link, priors[..k + 1])
        == if front.Some? && last.Some? then Some(front.value + last.value) else None
  {
    hide Linked;
    assert priors[..k + 1][..k] == priors[..k];
  }

  // The values of the priors, end to end, once every prior has one.
  lemma {:induction false} AllLinkedMeans(cases: map<Id, Case>, link: Linker, priors: seq<Id>, values: seq<seq<Entity>>)
    requires |values| == |priors|
    requires forall k | 0 <= k < |priors| :: Linked(cases, link, priors[k]) == Some(values[k])
    ensures AllLinked(cases, link, priors) == Some(Flatten(values))
  {
    hide Linked;
    if priors != [] { AllLinkedMeans(cases, link, priors[..|priors| - 1], values[..|values| - 1]); }
  }

  lemma NoneLinked(cases: map<Id, Case>, link: Linker)
    ensures AllLinked(cases, link, []) == Some([])
  {
  }

  lemma {:induction false} AllLinkedIff(cases: map<Id, Case>, link: Linker, priors: seq<Id>)
    ensures AllLinked(cases, link, priors).Some? <==> forall p | p in priors :: Linked(cases, link, p).Some?
  {
    if priors != [] {
      AllLinkedIff(cases, link, priors[..|priors| - 1]);
      assert priors == priors[..|priors| - 1] + [priors[|priors| - 1]];
    }
  }

  // ----- when replay raises

  // Some line of priors leads to an unknown id or back to a case it passed.
  ghost predicate Doomed(cases: map<Id, Case>, id: Id) {
    exists p :: LeadsNowhere(cases, id, p)
  }

  ghost predicate LeadsNowhere(cases: map<Id, Case>, id: Id, p: seq<Id>) {
    && IsWalk(cases, p) && p[0] == id
    && (p[|p| - 1] in cases ==> p[|p| - 1] in p[..|p| - 1])
  }

  lemma WalkOn(cases: map<Id, Case>, p: seq<Id>, next: Id)
    requires IsWalk(cases, p) && p[|p| - 1] in cases && next in cases[p[|p| - 1]].priors
    ensures IsWalk(cases, p + [next])
  {
    var q := p + [next];
    forall i {:trigger q[i]} | 0 <= i < |q| - 1 ensures q[i] in cases && q[i + 1] in cases[q[i]].priors {
      assert q[i] == p[i];
      assert i < |p| - 1 ==> q[i + 1] == p[i + 1];
    }
  }

  lemma WalkTail(cases: map<Id, Case>, p: seq<Id>)
    requires IsWalk(cases, p) && |p| >= 2
    ensures p[0] in cases && p[1] in cases[p[0]].priors && IsWalk(cases, p[1..])
  {
    var q := p[1..];
    assert p[0] in cases && p[0 + 1] in cases[p[0]].priors;
    forall i {:trigger q[i]} | 0 <= i < |q| - 1 ensures q[i] in cases && q[i + 1] in cases[q[i]].priors {
      assert q[i] == p[i + 1] && q[i + 1] == p[i + 1 + 1];
    }
  }

  // A doomed case has a doomed prior.
  lemma DoomPassesOn(cases: map<Id, Case>, id: Id) returns (prior: Id)
    requires id in cases && Doomed(cases, id)
    ensures prior in cases[id].priors && Doomed(cases, prior)
  {
    var p :| LeadsNowhere(cases, id, p);
    assert |p| >= 2;
    WalkTail(cases, p);
    prior := p[1];
    var q := p[1..];
    var last := p[|p| - 1];
    if last !in cases {
      assert LeadsNowhere(cases, prior, q);
    } else if last in q[..|q| - 1] {
      assert LeadsNowhere(cases, prior, q);
    } else {
      assert p[..|p| - 1] == [id] + q[..|q| - 1];
      WalkOn(cases, q, prior);
      assert (q + [prior])[..|q|][0] == prior;
      assert LeadsNowhere(cases, prior, q + [prior]);
    }
  }

  lemma {:induction false} PriorsInMember(cases: map<Id, Case>, link: Linker, priors: seq<Id>, n: nat, p: Id)
    requires PriorsIn(cases, link, priors, n).Some? && p in priors
    ensures LinkedIn(cases, link, p, n).Some?
  {
    if p != priors[|priors| - 1] {
      PriorsInMember(cases, link, priors[..|priors| - 1], n, p);
    }
  }

  lemma {:induction false} DoomedNeverEnds(cases: map<Id, Case>, link: Linker, id: Id, n: nat)
    requires Doomed(cases, id)
    ensures LinkedIn(cases, link, id, n).None?
    decreases n
  {
    if LinkedIn(cases, link, id, n).Some? {
      var prior := DoomPassesOn(cases, id);
      DoomedNeverEnds(cases, link, prior, n - 1);
      PriorsInMember(cases, link, cases[id].priors, n - 1, prior);
    }
  }

  ghost function Passed(p: seq<Id>): set<Id>
    requires p != []
  {
    var front := p[..|p| - 1];
    set x | x in front
  }

  // A walk through unlinked cases goes on until it meets an unknown id or itself.
  lemma {:induction false} UnlinkedIsDoomed(cases: map<Id, Case>, link: Linker, p: seq<Id>)
    requires IsWalk(cases, p) && Linked(cases, link, p[|p| - 1]).None?
    ensures Doomed(cases, p[0])
    decreases cases.Keys - Passed(p)
  {
    var x := p[|p| - 1];
    if x !in cases || x in p[..|p| - 1] {
      assert LeadsNowhere(cases, p[0], p);
    } else {
      LinkedUnfolds(cases, link, x);
      AllLinkedIff(cases, link, cases[x].priors);
      var next :| next in cases[x].priors && Linked(cases, link, next).None?;
      WalkOn(cases, p, next);
      var q := p + [next];
      assert q[..|q| - 1] == p && p == p[..|p| - 1] + [x];
      assert x in cases.Keys - Passed(p) && x in Passed(q);
      UnlinkedIsDoomed(cases, link, q);
    }
  }

  // Replay fails exactly on a cyclic or unknown ancestor.
  lemma RaisesIffDoomed(cases: map<Id, Case>, link: Linker, id: Id)
    ensures Linked(cases, link, id).None? <==> Doomed(cases, id)
  {
    if Linked(cases, link, id).None? {
      UnlinkedIsDoomed(cases, link, [id]);
    }
    if Doomed(cases, id) {
      forall n: nat ensures LinkedIn(cases, link, id, n).None? {
        DoomedNeverEnds(cases, link, id, n);
      }
    }
  }

  // ----- the memoised replay

  // The calls in progress: a walk of known cases, the last of which asks for `id`.
  ghost predicate Replaying(cases: map<Id, Case>, stack: seq<Id>, id: Id) {
    IsWalk(cases, stack + [id])
  }

  lemma ActiveIsDoomed(cases: map<Id, Case>, stack: seq<Id>, id: Id)
    requires Replaying(cases, stack, id) && id in stack
    ensures Doomed(cases, id)
  {
    var k :| 0 <= k < |stack| && stack[k] == id;
    var all, p := stack + [id], stack[k..] + [id];
    forall i {:trigger p[i]} | 0 <= i < |p| - 1 ensures p[i] in cases && p[i + 1] in cases[p[i]].priors {
      assert p[i] == all[k + i] && p[i + 1] == all[k + i + 1];
    }
    assert p[..|p| - 1][0] == id;
    assert LeadsNowhere(cases, id, p);
  }

  ghost predicate MemoIsSound(cases: map<Id, Case>, link: Linker, memo: map<Id, seq<Entity>>) {
    forall id {:trigger Remembered(cases, link, memo, id)} :: id in memo ==> Remembered(cases, link, memo, id)
  }

  ghost predicate Remembered(cases: map<Id, Case>, link: Linker, memo: map<Id, seq<Entity>>, id: Id) {
    id in memo && Linked(cases, link, id) == Some(memo[id])
  }

  lemma RememberOne(cases: map<Id, Case>, link: Linker, memo: map<Id, seq<Entity>>, id: Id, entities: seq<Entity>)
    requires MemoIsSound(cases, link, memo) && Linked(cases, link, id) == Some(entities)
    ensures MemoIsSound(cases, link, memo[id := entities])
  {
    var memo' := memo[id := entities];
    forall d | d in memo' ensures Remembered(cases, link, memo', d) {
      assert d != id ==> Remembered(cases, link, memo, d);
    }
  }

  class Replayer {
    const cases: map<Id, Case>
    const link: Linker
    var memo: map<Id, seq<Entity>>
    var active: set<Id>

    ghost predicate Valid(stack: seq<Id>)
      reads this
    {
      MemoIsSound(cases, link, memo) && active == set x | x in stack
    }

    constructor (cases: map<Id, Case>, link: Linker)
      ensures this.cases == cases && this.link == link && memo == map[] && active == {}
    {
      this.cases, this.link, memo, active := cases, link, map[], {};
    }

    // `_replay_linked_entities`: None stands for the ValueError.
    method Replay(id: Id, ghost stack: seq<Id>) returns (r: Option<seq<Entity>>)
      requires Valid(stack) && Replaying(cases, stack, id)
      modifies this
      ensures r == Linked(cases, link, id)
      ensures r.Some? ==> Valid(stack) && old(memo.Keys) <= memo.Keys && id in memo
      decreases cases.Keys - active, 0
    {
      if id in memo {
        assert Remembered(cases, link, memo, id);
        return Some(memo[id]);
      }
      if id in active {
        ActiveIsDoomed(cases, stack, id);
        RaisesIffDoomed(cases, link, id);
        return None;
      }
      LinkedUnfolds(cases, link, id);
      if id !in cases {
        return None;
      }
      ghost var open := cases.Keys - active;
      active := active + {id};
      assert cases.Keys - active == open - {id} && id in open;
      var entities := ReplayPriors(cases[id].priors, id, stack + [id]);
      if entities.None? {
        return None;
      }
      var linked := link(cases[id].question, Distinct(entities.value));
      RememberOne(cases, link, memo, id, linked);
      memo := memo[id := linked];
      active := active - {id};
      return Some(linked);
    }

    // The generator over the priors of the case being replayed.
    method ReplayPriors(priors: seq<Id>, ghost id: Id, ghost stack: seq<Id>) returns (r: Option<seq<Entity>>)
      requires Valid(stack)
      requires stack != [] && stack[|stack| - 1] == id && IsWalk(cases, stack)
      requires id in cases && priors == cases[id].priors
      modifies this
      ensures r == AllLinked(cases, link, priors)
      ensures r.Some? ==> Valid(stack) && old(memo.Keys) <= memo.Keys
      decreases cases.Keys - active, 1
    {
      hide AllLinked, Linked, MemoIsSound, IsWalk;
      var entities: seq<Entity> := [];
      NoneLinked(cases, link);
      AllLinkedIff(cases, link, priors);
      for k := 0 to |priors|
        invariant Valid(stack) && old(memo.Keys) <= memo.Keys
        invariant AllLinked(cases, link, priors[..k]) == Some(entities)
      {
        WalkOn(cases, stack, priors[k]);
        var more := Replay(priors[k], stack);
        AllLinkedNext(cases, link, priors, k);
        if more.None? {
          return None;
        }
        entities := entities + more.value;
      }
      assert priors[..|priors|] == priors;
      return Some(entities);
    }
  }

  // ----- a part that holds the priors of its cases replays them alone

  lemma {:induction false} LinkedInPart(part: map<Id, Case>, whole: map<Id, Case>, link: Linker, id: Id, n: nat)
    requires ClosedWithin(part, whole) && (id in whole ==> id in part)
    ensures LinkedIn(part, link, id, n) == LinkedIn(whole, link, id, n)
    decreases n, 0
  {
    if n > 0 && id in part {
      assert KeepsParents(part, whole, id);
      PriorsInPart(part, whole, link, part[id].priors, n - 1);
    }
  }

  lemma {:induction false} PriorsInPart(part: map<Id, Case>, whole: map<Id, Case>, link: Linker, priors: seq<Id>,
                                        n: nat)
    requires ClosedWithin(part, whole) && forall p | p in priors && p in whole :: p in part
    ensures PriorsIn(part, link, priors, n) == PriorsIn(whole, link, priors, n)
    decreases n, 1, |priors|
  {
    if priors != [] {
      PriorsInPart(part, whole, link, priors[..|priors| - 1], n);
      LinkedInPart(part, whole, link, priors[|priors| - 1], n);
    }
  }

  // A case of a parent-closed part is linked there as in the whole, and fails there exactly when it fails in the whole.
  lemma ReplayIsLocal(part: map<Id, Case>, whole: map<Id, Case>, link: Linker, id: Id)
    requires ClosedWithin(part, whole) && id in part
    ensures Linked(part, link, id) == Linked(whole, link, id)
    ensures Doomed(part, id) <==> Doomed(whole, id)
  {
    hide LinkedIn, Doomed;
    assert KeepsParents(part, whole, id);
    forall n: nat ensures LinkedIn(part, link, id, n) == LinkedIn(whole, link, id, n) {
      LinkedInPart(part, whole, link, id, n);
    }
    if n: nat :| LinkedIn(whole, link, id, n).Some? {
      LinkedAt(part, link, id, n);
      LinkedAt(whole, link, id, n);
    }
    RaisesIffDoomed(part, link, id);
    RaisesIffDoomed(whole, link, id);
  }

  // ----- the two harnesses

  // The main loop of v08: every case is linked with the entities of its replayed
  // priors, and the loop itself writes the result to the memo.
  method LinkInOrder(benchmark: seq<Case>, order: seq<Case>, link: Linker) returns (r: Option<seq<seq<Entity>>>)
    requires forall c | c in order :: c.id in ById(benchmark) && ById(benchmark)[c.id] == c
    ensures r.None? <==> exists k :: 0 <= k < |order| && Doomed(ById(benchmark), order[k].id)
    ensures r.Some? ==> |r.value| == |order|
    ensures r.Some? ==> forall k | 0 <= k < |order| :: Linked(ById(benchmark), link, order[k].id) == Some(r.value[k])
  {
    var replayer := new Replayer(ById(benchmark), link);
    var linked: seq<seq<Entity>> := [];
    for n := 0 to |order|
      invariant replayer.Valid([])
      invariant |linked| == n
      invariant forall k | 0 <= k < n :: Linked(ById(benchmark), link, order[k].id) == Some(linked[k])
    {
      var entities := ReplayTurn(replayer, order[n].priors);
      assert order[n] in order;
      LinkedUnfolds(ById(benchmark), link, order[n].id);
      RaisesIffDoomed(ById(benchmark), link, order[n].id);
      if entities.None? {
        return None;
      }
      var mine := link(order[n].question, Distinct(entities.value));
      RememberOne(ById(benchmark), link, replayer.memo, order[n].id, mine);
      replayer.memo := replayer.memo[order[n].id := mine];
      linked := linked + [mine];
    }
    forall k | 0 <= k < |order| ensures !Doomed(ById(benchmark), order[k].id) {
      RaisesIffDoomed(ById(benchmark), link, order[k].id);
    }
    return Some(linked);
  }

  // The entities of the priors of one turn, each replayed with nothing active.
  method ReplayTurn(replayer: Replayer, priors: seq<Id>) returns (r: Option<seq<Entity>>)
    requires replayer.Valid([])
    modifies replayer
    ensures r == AllLinked(replayer.cases, replayer.link, priors)
    ensures r.Some? ==> replayer.Valid([]) && old(replayer.memo.Keys) <= replayer.memo.Keys
    ensures r.Some? ==> forall p | p in priors :: p in replayer.memo
  {
    var entities: seq<Entity> := [];
    AllLinkedIff(replayer.cases, replayer.link, priors);
    for k := 0 to |priors|
      invariant replayer.Valid([]) && old(replayer.memo.Keys) <= replayer.memo.Keys
      invariant AllLinked(replayer.cases, replayer.link, priors[..k]) == Some(entities)
      invariant forall p | p in priors[..k] :: p in replayer.memo
    {
      var more := replayer.Replay(priors[k], []);
      assert priors[..k + 1][..k] == priors[..k];
      if more.None? {
        return None;
      }
      entities := entities + more.value;
    }
    assert priors[..|priors|] == priors;
    return Some(entities);
  }

  ghost predicate Declared(benchmark: seq<Case>, p: Id) {
    exists k :: 0 <= k < |benchmark| && p in benchmark[k].priors
  }

  // `_replay_prior_entities`: every declared prior of every case, in serialization order.
  method ReplayAllPriors(benchmark: seq<Case>, link: Linker) returns (r: Option<map<Id, seq<Entity>>>)
    ensures r.None? <==> exists p :: Declared(benchmark, p) && Doomed(ById(benchmark), p)
    ensures r.Some? ==> forall p | Declared(benchmark, p) ::
                          p in r.value && Linked(ById(benchmark), link, p) == Some(r.value[p])
  {
    var replayer := new Replayer(ById(benchmark), link);
    for n := 0 to |benchmark|
      invariant replayer.Valid([])
      invariant forall k, p | 0 <= k < n && p in benchmark[k].priors :: p in replayer.memo
    {
      var entities := ReplayTurn(replayer, benchmark[n].priors);
      AllLinkedIff(ById(benchmark), link, benchmark[n].priors);
      if entities.None? {
        ghost var p :| p in benchmark[n].priors && Linked(ById(benchmark), link, p).None?;
        RaisesIffDoomed(ById(benchmark), link, p);
        assert Declared(benchmark, p);
        return None;
      }
    }
    forall p | Declared(benchmark, p)
      ensures p in replayer.memo && Linked(ById(benchmark), link, p) == Some(replayer.memo[p])
      ensures !Doomed(ById(benchmark), p)
    {
      assert Remembered(ById(benchmark), link, replayer.memo, p);
      RaisesIffDoomed(ById(benchmark), link, p);
    }
    return Some(replayer.memo);
  }
}
