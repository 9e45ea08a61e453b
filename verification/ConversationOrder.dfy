// `conversation_order`: depth-first topological order of the cases, raising on a
// cycle of prior links.
module ConversationOrder {
  import opened CaseIds
  import opened Conversations
  import opened Wrappers

  datatype Mark = Active | Done

  // The cases finished so far stand behind all their known priors.
  ghost predicate IsSorted(cases: map<Id, Case>, state: map<Id, Mark>, ordered: seq<Case>) {
    && (forall i, j | 0 <= i < j < |ordered| :: ordered[i].id != ordered[j].id)
    && (forall k: nat {:trigger Settled(cases, state, ordered, k)} :: k < |ordered| ==>
      Settled(cases, state, ordered, k))
    && (forall id {:trigger Listed(cases, ordered, id)} :: id in state && state[id] == Done ==>
      Listed(cases, ordered, id))
  }

  ghost predicate Settled(cases: map<Id, Case>, state: map<Id, Mark>, ordered: seq<Case>, k: nat)
    requires k < |ordered|
  {
    && ordered[k].id in cases && cases[ordered[k].id] == ordered[k]
    && ordered[k].id in state && state[ordered[k].id] == Done
    && forall p | p in ordered[k].priors && p in cases :: cases[p] in ordered[..k]
  }

  ghost predicate Known(cases: map<Id, Case>, state: map<Id, Mark>, stack: seq<Id>, id: Id) {
    id in cases && (id in state && state[id] == Active ==> id in stack)
  }

  ghost predicate InProgress(cases: map<Id, Case>, state: map<Id, Mark>, stack: seq<Id>, k: nat)
    requires k < |stack|
  {
    && stack[k] in state && state[stack[k]] == Active && stack[k] in cases
    && (k + 1 < |stack| ==> stack[k + 1] in cases[stack[k]].priors)
  }

  // The calls in progress form a walk through the cases marked active.
  ghost predicate IsStack(cases: map<Id, Case>, state: map<Id, Mark>, stack: seq<Id>) {
    && (forall id {:trigger Known(cases, state, stack, id)} :: id in state ==> Known(cases, state, stack, id))
    && (forall k: nat {:trigger InProgress(cases, state, stack, k)} :: k < |stack| ==>
      InProgress(cases, state, stack, k))
  }

  // The next call is made for a prior of the innermost one.
  ghost predicate Calls(cases: map<Id, Case>, stack: seq<Id>, id: Id)
  {
    stack == [] || (stack[|stack| - 1] in cases && id in cases[stack[|stack| - 1]].priors)
  }

  // An active case met again closes a cycle.
  lemma ActiveMeansCycle(cases: map<Id, Case>, state: map<Id, Mark>, stack: seq<Id>, id: Id)
    requires IsStack(cases, state, stack) && Calls(cases, stack, id)
    requires id in state && state[id] == Active
    ensures Cyclic(cases)
  {
    assert Known(cases, state, stack, id);
    var k: nat :| k < |stack| && stack[k] == id;
    var p := stack[k..] + [id];
    forall i {:trigger p[i]} | 0 <= i < |p| - 1 ensures p[i] in cases && p[i + 1] in cases[p[i]].priors {
      assert InProgress(cases, state, stack, k + i);
      assert p[i] == stack[k + i];
      if i < |p| - 2 {
        assert p[i + 1] == stack[k + i + 1];
      }
    }
    assert IsCycle(cases, p);
  }

  // Marks are never taken back and the finished cases stay where they are.
  ghost predicate Advances(state: map<Id, Mark>, ordered: seq<Case>, state': map<Id, Mark>, ordered': seq<Case>) {
    && (forall c | c in state :: c in state' && state'[c] == state[c])
    && ordered <= ordered'
  }

  ghost predicate IsDone(state: map<Id, Mark>, id: Id) { id in state && state[id] == Done }

  ghost predicate AllDone(cases: map<Id, Case>, state: map<Id, Mark>, priors: seq<Id>) {
    forall p | p in priors && p in cases :: p in state && state[p] == Done
  }

  lemma EnterCase(cases: map<Id, Case>, state: map<Id, Mark>, stack: seq<Id>, ordered: seq<Case>, id: Id)
    requires IsStack(cases, state, stack) && IsSorted(cases, state, ordered) && Calls(cases, stack, id)
    requires id in cases && id !in state
    ensures IsStack(cases, state[id := Active], stack + [id]) && IsSorted(cases, state[id := Active], ordered)
  {
    var state', stack' := state[id := Active], stack + [id];
    forall k: nat | k < |ordered| ensures Settled(cases, state', ordered, k) {
      assert Settled(cases, state, ordered, k);
    }
    forall d | d in state' && state'[d] == Done ensures Listed(cases, ordered, d) {
      assert d in state && state[d] == Done;
    }
    forall d | d in state' ensures Known(cases, state', stack', d) {
      assert stack'[|stack|] == id;
      assert d in state ==> Known(cases, state, stack, d);
    }
    forall k: nat | k < |stack'| ensures InProgress(cases, state', stack', k) {
      if k < |stack| {
        assert InProgress(cases, state, stack, k);
      }
    }
  }

  lemma NotInProgress(cases: map<Id, Case>, state: map<Id, Mark>, stack: seq<Id>, id: Id)
    requires IsStack(cases, state, stack) && id !in state
    ensures id !in stack
  {
    forall k: nat | k < |stack| ensures stack[k] != id {
      assert InProgress(cases, state, stack, k);
    }
  }

  lemma FinishStack(cases: map<Id, Case>, state: map<Id, Mark>, stack: seq<Id>, id: Id)
    requires IsStack(cases, state, stack + [id]) && id !in stack
    ensures id in state && state[id] == Active
    ensures IsStack(cases, state[id := Done], stack)
  {
    var stack', state' := stack + [id], state[id := Done];
    assert InProgress(cases, state, stack', |stack|);
    forall d | d in state' ensures Known(cases, state', stack, d) {
      assert Known(cases, state, stack', d);
    }
    forall k: nat | k < |stack| ensures InProgress(cases, state', stack, k) {
      assert InProgress(cases, state, stack', k);
      assert stack'[k] == stack[k];
      assert k + 1 < |stack| ==> stack'[k + 1] == stack[k + 1];
    }
  }

  lemma FinishCase(cases: map<Id, Case>, state: map<Id, Mark>, ordered: seq<Case>, id: Id)
    requires IsSorted(cases, state, ordered)
    requires id in cases && cases[id].id == id && id in state && state[id] == Active
    requires AllDone(cases, state, cases[id].priors)
    ensures IsSorted(cases, state[id := Done], ordered + [cases[id]])
  {
    var after, state' := ordered + [cases[id]], state[id := Done];
    forall k: nat | k < |after| ensures Settled(cases, state', after, k) {
      if k < |ordered| {
        assert Settled(cases, state, ordered, k);
        assert after[..k] == ordered[..k];
      } else {
        assert after[..k] == ordered;
        forall p | p in after[k].priors && p in cases ensures cases[p] in ordered {
          assert Listed(cases, ordered, p);
        }
      }
    }
    forall i, j | 0 <= i < j < |after| ensures after[i].id != after[j].id {
      assert Settled(cases, state, ordered, i);
    }
    forall d | d in state' && state'[d] == Done ensures Listed(cases, after, d) {
      assert cases[id] == after[|ordered|];
      assert d != id ==> Listed(cases, ordered, d);
    }
  }

  class Visitor {
    const cases: map<Id, Case>
    var state: map<Id, Mark>
    var ordered: seq<Case>

    ghost predicate Valid(stack: seq<Id>)
      reads this
    {
      && (forall c | c in cases :: cases[c].id == c)
      && IsStack(cases, state, stack) && IsSorted(cases, state, ordered)
    }

    constructor (cases: map<Id, Case>)
      requires forall id | id in cases :: cases[id].id == id
      ensures this.cases == cases && state == map[] && ordered == []
    {
      this.cases, state, ordered := cases, map[], [];
    }

    // `visit`: false stands for the ValueError. The stack lists the calls in progress.
    method Visit(id: Id, ghost stack: seq<Id>) returns (ok: bool)
      requires Valid(stack) && Calls(cases, stack, id)
      modifies this
      ensures ok ==> Valid(stack) && Advances(old(state), old(ordered), state, ordered)
      ensures ok && id in cases ==> id in state && state[id] == Done
      ensures !ok ==> Cyclic(cases)
      ensures id !in cases || IsDone(old(state), id) ==> ok && state == old(state) && ordered == old(ordered)
      ensures id in cases && id !in old(state) && AllDone(cases, old(state), cases[id].priors) ==>
        ok && state == old(state)[id := Done] && ordered == old(ordered) + [cases[id]]
      decreases cases.Keys - state.Keys, 0
    {
      if id in state {
        assert Known(cases, state, stack, id);
        if state[id] == Done {
          return true;
        }
        ActiveMeansCycle(cases, state, stack, id);
        return false;
      }
      if id !in cases {
        return true;
      }
      EnterCase(cases, state, stack, ordered, id);
      NotInProgress(cases, state, stack, id);
      ghost var unseen := cases.Keys - state.Keys;
      state := state[id := Active];
      assert cases.Keys - state.Keys == unseen - {id} && id in unseen;
      ok := VisitPriors(cases[id].priors, id, stack + [id]);
      if ok {
        FinishStack(cases, state, stack, id);
        FinishCase(cases, state, ordered, id);
        state := state[id := Done];
        ordered := ordered + [cases[id]];
      }
    }

    // The loop of `visit` over the priors of the case being visited.
    method VisitPriors(priors: seq<Id>, id: Id, ghost stack: seq<Id>) returns (ok: bool)
      requires Valid(stack)
      requires stack != [] && stack[|stack| - 1] == id && id in cases && priors == cases[id].priors
      modifies this
      ensures ok ==> Valid(stack) && Advances(old(state), old(ordered), state, ordered)
      ensures ok ==> AllDone(cases, state, priors)
      ensures !ok ==> Cyclic(cases)
      ensures AllDone(cases, old(state), priors) ==> ok && state == old(state) && ordered == old(ordered)
      decreases cases.Keys - state.Keys, 1
    {
      for k := 0 to |priors|
        invariant Valid(stack) && Advances(old(state), old(ordered), state, ordered)
        invariant AllDone(cases, state, priors[..k])
        invariant AllDone(cases, old(state), priors) ==> state == old(state) && ordered == old(ordered)
      {
        ok := Visit(priors[k], stack);
        if !ok {
          return;
        }
        assert priors[..k + 1] == priors[..k] + [priors[k]];
      }
      assert priors[..|priors|] == priors;
      ok := true;
    }
  }

  ghost predicate Among(cases: seq<Case>, n: nat, id: Id) {
    exists k :: 0 <= k < n && k < |cases| && cases[k].id == id
  }

  // Exactly the first n cases are finished.
  ghost predicate DoneUpTo(cases: seq<Case>, state: map<Id, Mark>, n: nat) {
    forall id {:trigger IsDone(state, id)} :: IsDone(state, id) <==> Among(cases, n, id)
  }

  // In a list that has priors first, the next case is new and its priors are finished.
  lemma NextInOrder(cases: seq<Case>, state: map<Id, Mark>, n: nat)
    requires n < |cases| && ParentsFirst(ById(cases), cases) && DoneUpTo(cases, state, n)
    requires IsStack(ById(cases), state, [])
    ensures var c, byId := cases[n], ById(cases);
      c.id in byId && byId[c.id] == c && c.id !in state && AllDone(byId, state, c.priors)
  {
    hide ById, IsDone;
    var c, byId := cases[n], ById(cases);
    assert BehindPriors(byId, cases, n);
    NotAmong(cases, n);
    NoneActive(byId, state, c.id);
    forall p | p in c.priors && p in byId ensures IsDone(state, p) {
      var k :| 0 <= k < n && cases[..n][k] == byId[p];
      assert BehindPriors(byId, cases, k);
      KeyOfCase(cases, p);
      assert cases[k].id == p;
      assert Among(cases, n, p);
    }
    DoneMeans(byId, state, c.priors);
  }

  lemma KeyOfCase(cases: seq<Case>, p: Id)
    requires p in ById(cases)
    ensures ById(cases)[p].id == p
  {
    ByIdMembers(cases);
  }

  lemma DoneMeans(cases: map<Id, Case>, state: map<Id, Mark>, priors: seq<Id>)
    requires forall p | p in priors && p in cases :: IsDone(state, p)
    ensures AllDone(cases, state, priors)
  {
  }

  lemma NotAmong(cases: seq<Case>, n: nat)
    requires n < |cases| && DistinctIds(cases)
    ensures !Among(cases, n, cases[n].id)
  {
  }

  lemma DoneNext(cases: seq<Case>, state: map<Id, Mark>, n: nat)
    requires n < |cases| && DoneUpTo(cases, state, n)
    ensures DoneUpTo(cases, state[cases[n].id := Done], n + 1)
  {
    var after := state[cases[n].id := Done];
    forall id ensures IsDone(after, id) <==> Among(cases, n + 1, id) {
      assert id != cases[n].id ==> (IsDone(after, id) <==> IsDone(state, id));
    }
  }

  // Raises exactly on a cycle; otherwise every case once, priors first. Cases that stand behind their priors already
  // are left as they are.
  method Order(cases: seq<Case>) returns (r: Result<seq<Case>>)
    ensures r.Raised? <==> Cyclic(ById(cases))
    ensures r.Ok? ==> ParentsFirst(ById(cases), r.value)
    ensures ParentsFirst(ById(cases), cases) ==> r == Ok(cases)
  {
    hide DoneUpTo, AllDone, ParentsFirst, ById;
    ByIdMembers(cases);
    NoneDone(cases);
    var visitor := new Visitor(ById(cases));
    for n := 0 to |cases|
      invariant visitor.Valid([])
      invariant ParentsFirst(ById(cases), cases) ==>
        visitor.ordered == cases[..n] && DoneUpTo(cases, visitor.state, n)
      invariant forall c | c in cases[..n] :: c.id in visitor.state && visitor.state[c.id] == Done
    {
      if ParentsFirst(ById(cases), cases) {
        NextInOrder(cases, visitor.state, n);
        DoneNext(cases, visitor.state, n);
      }
      var ok := visitor.Visit(cases[n].id, []);
      if !ok {
        return Raised;
      }
      assert cases[..n + 1] == cases[..n] + [cases[n]];
    }
    assert cases[..|cases|] == cases;
    FinishedIsOrder(cases, visitor.state, visitor.ordered);
    ParentsFirstIsAcyclic(ById(cases), visitor.ordered);
    return Ok(visitor.ordered);
  }

  lemma NoneDone(cases: seq<Case>)
    ensures DoneUpTo(cases, map[], 0)
  {
  }

  lemma NoneActive(cases: map<Id, Case>, state: map<Id, Mark>, id: Id)
    requires IsStack(cases, state, [])
    ensures id in state ==> IsDone(state, id)
  {
    assert id in state ==> Known(cases, state, [], id);
  }

  lemma FinishedIsOrder(cases: seq<Case>, state: map<Id, Mark>, ordered: seq<Case>)
    requires IsSorted(ById(cases), state, ordered)
    requires forall c | c in cases :: c.id in state && state[c.id] == Done
    ensures ParentsFirst(ById(cases), ordered)
  {
    var byId := ById(cases);
    ByIdMembers(cases);
    forall k: nat | k < |ordered| ensures BehindPriors(byId, ordered, k) {
      assert Settled(byId, state, ordered, k);
    }
    forall id | id in byId ensures Listed(byId, ordered, id) {
      assert byId[id] in cases && byId[id].id == id;
    }
  }
}
