// The benchmark as the harness scripts see it: cases, the `prior_case_ids` links
// between them, and the two shapes a link graph can take (acyclic or not).
module Conversations {
  import opened CaseIds
  import opened Sorting
  import opened Wrappers

  type Doc = string

  datatype Case = Case(id: Id, priors: seq<Id>, isAnswer: bool, gold: set<string>, question: string)

  function Ids(cases: seq<Case>): (ids: seq<Id>)
    ensures |ids| == |cases|
    ensures forall k | 0 <= k < |cases| :: ids[k] == cases[k].id
  {
    seq(|cases|, k requires 0 <= k < |cases| => cases[k].id)
  }

  // The cases by id; a repeated id keeps the last case.
  function ById(cases: seq<Case>): map<Id, Case> {
    if cases == [] then map[]
    else
      var last := cases[|cases| - 1];
      ById(cases[..|cases| - 1])[last.id := last]
  }

  lemma {:induction false} ByIdMember(cases: seq<Case>, id: Id)
    ensures id in ById(cases) ==> ById(cases)[id].id == id && ById(cases)[id] in cases
  {
    if cases != [] {
      ByIdMember(cases[..|cases| - 1], id);
    }
  }

  lemma {:induction false} ByIdHolds(cases: seq<Case>, k: nat)
    requires k < |cases|
    ensures cases[k].id in ById(cases)
  {
    if k < |cases| - 1 {
      ByIdHolds(cases[..|cases| - 1], k);
    }
  }

  lemma ByIdMembers(cases: seq<Case>)
    ensures forall id | id in ById(cases) :: ById(cases)[id].id == id && ById(cases)[id] in cases
    ensures forall c | c in cases :: c.id in ById(cases)
  {
    forall id | id in ById(cases) ensures ById(cases)[id].id == id && ById(cases)[id] in cases {
      ByIdMember(cases, id);
    }
    forall c | c in cases ensures c.id in ById(cases) {
      var k :| 0 <= k < |cases| && cases[k] == c;
      ByIdHolds(cases, k);
    }
  }

  lemma {:induction false} ByIdUnique(cases: seq<Case>, k: nat)
    requires k < |cases|
    requires forall i, j | 0 <= i < j < |cases| :: cases[i].id != cases[j].id
    ensures cases[k].id in ById(cases) && ById(cases)[cases[k].id] == cases[k]
  {
    if k < |cases| - 1 {
      ByIdUnique(cases[..|cases| - 1], k);
    }
  }

  // A walk from a case to a declared prior, to a prior of that prior, and so on.
  // Every step leaves a known case; the walk may end at an unknown id.
  ghost predicate IsWalk(cases: map<Id, Case>, p: seq<Id>) {
    && |p| > 0
    && forall i {:trigger p[i]} | 0 <= i < |p| - 1 :: p[i] in cases && p[i + 1] in cases[p[i]].priors
  }

  ghost predicate IsCycle(cases: map<Id, Case>, p: seq<Id>) {
    IsWalk(cases, p) && |p| >= 2 && p[0] == p[|p| - 1]
  }

  ghost predicate Cyclic(cases: map<Id, Case>) {
    exists p :: IsCycle(cases, p)
  }

  // The case at place `k` is the known case of its id, behind all its known priors.
  ghost predicate BehindPriors(cases: map<Id, Case>, order: seq<Case>, k: nat)
    requires k < |order|
  {
    && order[k].id in cases && cases[order[k].id] == order[k]
    && forall p | p in order[k].priors && p in cases :: cases[p] in order[..k]
  }

  ghost predicate Listed(cases: map<Id, Case>, order: seq<Case>, id: Id) {
    id in cases && cases[id] in order
  }

  ghost predicate DistinctIds(order: seq<Case>) {
    forall i, j | 0 <= i < j < |order| :: order[i].id != order[j].id
  }

  // What `conversation_order` owes its callers: every case once, its priors first.
  ghost predicate ParentsFirst(cases: map<Id, Case>, order: seq<Case>) {
    && DistinctIds(order)
    && (forall k: nat {:trigger BehindPriors(cases, order, k)} :: k < |order| ==> BehindPriors(cases, order, k))
    && (forall id {:trigger Listed(cases, order, id)} :: id in cases ==> Listed(cases, order, id))
  }

  ghost function Position(order: seq<Case>, c: Case): (k: nat)
    requires c in order
    ensures k < |order| && order[k] == c
  {
    var k :| 0 <= k < |order| && order[k] == c;
    k
  }

  // Walking up the priors moves strictly towards the front of such an order.
  lemma {:induction false} WalkMovesForward(cases: map<Id, Case>, order: seq<Case>, p: seq<Id>)
    requires ParentsFirst(cases, order)
    requires IsWalk(cases, p) && |p| >= 2 && p[|p| - 1] in cases
    ensures p[0] in cases && cases[p[0]] in order && cases[p[|p| - 1]] in order
    ensures Position(order, cases[p[|p| - 1]]) < Position(order, cases[p[0]])
    decreases |p|
  {
    assert p[0] in cases && p[1] in cases[p[0]].priors;
    if |p| > 2 {
      assert p[1] in cases;
      assert IsWalk(cases, p[1..]) by {
        forall i | 0 <= i < |p[1..]| - 1
          ensures p[1..][i] in cases && p[1..][i + 1] in cases[p[1..][i]].priors
        {
          assert p[1..][i] == p[i + 1];
        }
      }
      WalkMovesForward(cases, order, p[1..]);
    }
    assert Listed(cases, order, p[0]);
    var child, prior := cases[p[0]], cases[p[1]];
    var k := Position(order, child);
    assert BehindPriors(cases, order, k);
    assert prior in order[..k];
    var j :| 0 <= j < k && order[..k][j] == prior;
    assert order[j] == prior;
    assert Position(order, prior) == j;
  }

  lemma ParentsFirstIsAcyclic(cases: map<Id, Case>, order: seq<Case>)
    requires ParentsFirst(cases, order)
    ensures !Cyclic(cases)
  {
    if p :| IsCycle(cases, p) {
      assert p[0] in cases;
      WalkMovesForward(cases, order, p);
    }
  }

  // With distinct ids, an order over `ById(cases)` only rearranges the cases.
  lemma ParentsFirstPermutes(cases: seq<Case>, order: seq<Case>)
    requires forall i, j | 0 <= i < j < |cases| :: cases[i].id != cases[j].id
    requires ParentsFirst(ById(cases), order)
    ensures multiset(order) == multiset(cases)
  {
    ByIdMembers(cases);
    forall c ensures c in cases <==> c in order {
      if c in cases {
        var k :| 0 <= k < |cases| && cases[k] == c;
        ByIdUnique(cases, k);
        assert Listed(ById(cases), order, c.id);
      }
      if c in order {
        var k :| 0 <= k < |order| && order[k] == c;
        assert BehindPriors(ById(cases), order, k);
      }
    }
    DistinctSameMembers(order, cases);
  }

  // ----- selecting cases

  function Members(ids: seq<Id>): set<Id> { set x | x in ids }

  // The cases whose id is wanted, in order.
  function Pick(cases: seq<Case>, wanted: set<Id>): seq<Case> {
    if cases == [] then []
    else
      var n := |cases| - 1;
      Pick(cases[..n], wanted) + if cases[n].id in wanted then [cases[n]] else []
  }

  lemma {:induction false} PickMember(cases: seq<Case>, wanted: set<Id>, c: Case)
    ensures c in Pick(cases, wanted) <==> c in cases && c.id in wanted
  {
    if cases != [] {
      assert cases == cases[..|cases| - 1] + [cases[|cases| - 1]];
      PickMember(cases[..|cases| - 1], wanted, c);
    }
  }

  function Last(cases: seq<Case>, id: Id): Option<Case> {
    if cases == [] then None
    else if cases[|cases| - 1].id == id then Some(cases[|cases| - 1])
    else Last(cases[..|cases| - 1], id)
  }

  lemma {:induction false} ByIdLast(cases: seq<Case>, id: Id)
    ensures id in ById(cases) <==> Last(cases, id).Some?
    ensures id in ById(cases) ==> ById(cases)[id] == Last(cases, id).value
  {
    if cases != [] {
      ByIdLast(cases[..|cases| - 1], id);
    }
  }

  lemma {:induction false} PickLast(cases: seq<Case>, wanted: set<Id>, id: Id)
    ensures Last(Pick(cases, wanted), id) == if id in wanted then Last(cases, id) else None
  {
    if cases != [] {
      var front := Pick(cases[..|cases| - 1], wanted);
      PickLast(cases[..|cases| - 1], wanted, id);
      assert Pick(cases, wanted) != front ==> Pick(cases, wanted)[..|front|] == front;
    }
  }

  // Restricting the cases to some ids restricts the dictionary to those ids.
  lemma PickRestricts(cases: seq<Case>, wanted: set<Id>, id: Id)
    ensures id in ById(Pick(cases, wanted)) <==> id in ById(cases) && id in wanted
    ensures id in ById(Pick(cases, wanted)) ==> ById(Pick(cases, wanted))[id] == ById(cases)[id]
  {
    PickLast(cases, wanted, id);
    ByIdLast(cases, id);
    ByIdLast(Pick(cases, wanted), id);
  }

  // ----- parts of a benchmark

  // A case of the part, with every declared parent that the whole knows.
  ghost predicate KeepsParents(part: map<Id, Case>, whole: map<Id, Case>, id: Id) {
    && id in part && id in whole && whole[id] == part[id] && part[id].id == id
    && forall p | p in part[id].priors && p in whole :: p in part
  }

  // A set of cases that holds every declared parent the larger set holds.
  ghost predicate ClosedWithin(part: map<Id, Case>, whole: map<Id, Case>) {
    forall id {:trigger KeepsParents(part, whole, id)} :: id in part ==> KeepsParents(part, whole, id)
  }
}
