// Splitting the benchmark into conversation shards: weakly connected components of
// the prior links, balanced largest first over the workers.
module ConversationShards {
  import opened Balance
  import opened CaseIds
  import opened Conversations
  import opened Sorting
  import opened UnionFind
  import opened Wrappers

  // The links `conversation_components` follows: those to a prior in the benchmark.
  ghost function PriorLinks(cases: seq<Case>, ids: set<Id>): set<(Id, Id)> {
    set c, p | c in cases && p in c.priors && p in ids :: (c.id, p)
  }

  ghost function KnownIds(cases: seq<Case>): set<Id> {
    set c | c in cases :: c.id
  }

  // Two cases belong to one conversation when prior links connect them.
  ghost predicate SameConversation(cases: seq<Case>, x: Id, y: Id) {
    Connected(PriorLinks(cases, KnownIds(cases)), x, y)
  }

  // The parts hold every id, none is empty, and conversations are the parts.
  ghost predicate AreConversations(cases: seq<Case>, parts: seq<seq<Id>>) {
    && multiset(Flatten(parts)) == multiset(Ids(cases))
    && (forall i | 0 <= i < |parts| :: parts[i] != [])
    && (forall i, j, x, y {:trigger x in parts[i], y in parts[j]} | 0 <= i < |parts| && 0 <= j < |parts|
          && x in parts[i] && y in parts[j] ::
          i == j <==> SameConversation(cases, x, y))
  }

  method ConversationComponents(cases: seq<Case>) returns (groups: seq<seq<Id>>)
    ensures AreConversations(cases, groups)
  {
    var forest := new Forest<Id>();
    var ids := set c | c in cases :: c.id;
    UniteConversations(forest, cases, ids);
    groups := GroupByRoot(forest, cases);
  }

  lemma PriorLinksStep(cases: seq<Case>, ids: set<Id>)
    requires cases != []
    ensures var c := cases[|cases| - 1];
            PriorLinks(cases, ids) == PriorLinks(cases[..|cases| - 1], ids) + LinksOf(c.id, c.priors, ids)
  {
    var front, c := cases[..|cases| - 1], cases[|cases| - 1];
    assert cases == front + [c];
  }

  ghost function LinksOf(id: Id, priors: seq<Id>, ids: set<Id>): set<(Id, Id)> {
    set p | p in priors && p in ids :: (id, p)
  }

  lemma LinksOfStep(id: Id, priors: seq<Id>, ids: set<Id>)
    requires priors != []
    ensures var p := priors[|priors| - 1];
            LinksOf(id, priors, ids) == LinksOf(id, priors[..|priors| - 1], ids) + if p in ids then {(id, p)} else {}
  {
    var front, p := priors[..|priors| - 1], priors[|priors| - 1];
    assert priors == front + [p];
  }

  // The double loop over cases and their priors.
  method UniteConversations(forest: Forest<Id>, cases: seq<Case>, ids: set<Id>)
    requires forest.Valid() && forest.parent == map[] && forest.links == {}
    modifies forest
    ensures forest.Valid() && forest.links == PriorLinks(cases, ids)
  {
    for n := 0 to |cases|
      invariant forest.Valid() && forest.links == PriorLinks(cases[..n], ids)
    {
      UnitePriors(forest, cases[n].id, cases[n].priors, ids);
      assert cases[..n + 1][..n] == cases[..n];
      PriorLinksStep(cases[..n + 1], ids);
    }
    assert cases[..|cases|] == cases;
  }

  method UnitePriors(forest: Forest<Id>, id: Id, priors: seq<Id>, ids: set<Id>)
    requires forest.Valid()
    modifies forest
    ensures forest.Valid() && forest.links == old(forest.links) + LinksOf(id, priors, ids)
  {
    for m := 0 to |priors|
      invariant forest.Valid() && forest.links == old(forest.links) + LinksOf(id, priors[..m], ids)
    {
      if priors[m] in ids {
        Unite(forest, id, priors[m]);
      }
      assert priors[..m + 1][..m] == priors[..m];
      LinksOfStep(id, priors[..m + 1], ids);
    }
    assert priors[..|priors|] == priors;
  }

  method Unite(forest: Forest<Id>, x: Id, y: Id)
    requires forest.Valid()
    modifies forest
    ensures forest.Valid() && forest.links == old(forest.links) + {(x, y)}
  {
    var a := forest.Find(x);
    var b := forest.Find(y);
    assert Node(forest.parent, forest.root, forest.rank, forest.height, x);
    if a != b {
      forest.Attach(a, b, x, y);
    } else {
      forest.Absorb(x, y);
    }
  }

  // The insertion-ordered dictionary of lists: `keys[g]` owns `groups[g]`, and
  // `slot` finds a key again.
  ghost predicate Grouped(root: map<Id, Id>, slot: map<Id, nat>, keys: seq<Id>, groups: seq<seq<Id>>) {
    && |keys| == |groups|
    && (forall r | r in slot :: slot[r] < |keys| && keys[slot[r]] == r)
    && (forall g | 0 <= g < |keys| :: keys[g] in slot && slot[keys[g]] == g)
    && (forall g | 0 <= g < |groups| :: GroupOf(root, keys[g], groups[g]))
  }

  ghost predicate GroupOf(root: map<Id, Id>, key: Id, group: seq<Id>) {
    group != [] && forall x | x in group :: x in root && root[x] == key
  }

  lemma NothingGrouped(root: map<Id, Id>)
    ensures Grouped(root, map[], [], [])
  {
  }

  lemma GroupedRegister(root: map<Id, Id>, slot: map<Id, nat>, keys: seq<Id>, groups: seq<seq<Id>>, id: Id)
    requires Grouped(root, slot, keys, groups) && id !in root
    ensures Grouped(root[id := id], slot, keys, groups)
  {
    forall g | 0 <= g < |groups| ensures GroupOf(root[id := id], keys[g], groups[g]) {
      assert GroupOf(root, keys[g], groups[g]);
    }
  }

  lemma GroupedAppend(root: map<Id, Id>, slot: map<Id, nat>, keys: seq<Id>, groups: seq<seq<Id>>, id: Id)
    requires Grouped(root, slot, keys, groups) && id in root && root[id] in slot
    ensures Grouped(root, slot, keys, groups[slot[root[id]] := groups[slot[root[id]]] + [id]])
  {
    var k := slot[root[id]];
    assert GroupOf(root, keys[k], groups[k]);
    assert GroupOf(root, keys[k], groups[k] + [id]);
  }

  lemma GroupedOpen(root: map<Id, Id>, slot: map<Id, nat>, keys: seq<Id>, groups: seq<seq<Id>>, id: Id)
    requires Grouped(root, slot, keys, groups) && id in root && root[id] !in slot
    ensures Grouped(root, slot[root[id] := |groups|], keys + [root[id]], groups + [[id]])
  {
    assert GroupOf(root, root[id], [id]);
  }

  lemma GroupsAreConversations(root: map<Id, Id>, slot: map<Id, nat>, keys: seq<Id>, groups: seq<seq<Id>>,
                               cases: seq<Case>)
    requires Grouped(root, slot, keys, groups)
    requires Represents(root, PriorLinks(cases, KnownIds(cases)))
    requires multiset(Flatten(groups)) == multiset(Ids(cases))
    ensures AreConversations(cases, groups)
  {
    forall i, j, x, y | 0 <= i < |groups| && 0 <= j < |groups| && x in groups[i] && y in groups[j]
      ensures i == j <==> SameConversation(cases, x, y)
    {
      assert GroupOf(root, keys[i], groups[i]) && GroupOf(root, keys[j], groups[j]);
      RootsAgreeIff(root, PriorLinks(cases, KnownIds(cases)), x, y);
    }
    forall i | 0 <= i < |groups| ensures groups[i] != [] {
      assert GroupOf(root, keys[i], groups[i]);
    }
  }

  // Every id joins the group of its representative, which its first member opens.
  method GroupByRoot(forest: Forest<Id>, cases: seq<Case>) returns (groups: seq<seq<Id>>)
    requires forest.Valid() && forest.links == PriorLinks(cases, KnownIds(cases))
    modifies forest
    ensures AreConversations(cases, groups)
  {
    hide Flatten, PriorLinks, AreConversations, Grouped, KnownIds;
    var slot: map<Id, nat> := map[];
    ghost var keys: seq<Id> := [];
    groups := [];
    FlattenNone<Id>();
    NothingGrouped(forest.root);
    for n := 0 to |cases|
      invariant forest.Valid() && forest.links == PriorLinks(cases, KnownIds(cases))
      invariant Grouped(forest.root, slot, keys, groups)
      invariant multiset(Flatten(groups)) == multiset(Ids(cases)[..n])
    {
      slot, keys, groups := AppendToGroup(forest, slot, keys, groups, cases[n].id);
      assert Ids(cases)[..n + 1][..n] == Ids(cases)[..n];
      LastCounts(Ids(cases)[..n + 1]);
    }
    assert Ids(cases)[..|cases|] == Ids(cases);
    GroupsAreConversations(forest.root, slot, keys, groups, cases);
  }

  method AppendToGroup(forest: Forest<Id>, slot: map<Id, nat>, ghost keys: seq<Id>, groups: seq<seq<Id>>, id: Id)
    returns (slot': map<Id, nat>, ghost keys': seq<Id>, groups': seq<seq<Id>>)
    requires forest.Valid() && Grouped(forest.root, slot, keys, groups)
    modifies forest
    ensures forest.Valid() && forest.links == old(forest.links)
    ensures Grouped(forest.root, slot', keys', groups')
    ensures multiset(Flatten(groups')) == multiset(Flatten(groups)) + multiset{id}
  {
    if id !in forest.root {
      GroupedRegister(forest.root, slot, keys, groups, id);
    }
    var r := forest.Find(id);
    slot', keys', groups' := slot, keys, groups;
    if r in slot {
      GroupedAppend(forest.root, slot, keys, groups, id);
      FlattenExtend(groups, slot[r], [id]);
      groups' := groups[slot[r] := groups[slot[r]] + [id]];
    } else {
      GroupedOpen(forest.root, slot, keys, groups, id);
      slot', keys', groups' := slot[r := |groups|], keys + [r], groups + [[id]];
      assert groups'[..|groups|] == groups;
    }
  }

  // ----- balancing

  predicate NoLonger(x: seq<Id>, y: seq<Id>) { |x| <= |y| }

  predicate NoShorter(x: seq<Id>, y: seq<Id>) { |x| >= |y| }

  // Two stable sorts by size, ascending and then descending.
  function LargestFirst(components: seq<seq<Id>>): (ordered: seq<seq<Id>>)
    ensures multiset(ordered) == multiset(components) && |ordered| == |components|
  {
    Sort(Sort(components, NoLonger), NoShorter)
  }

  function OfSize(size: nat): seq<Id> -> bool {
    (c: seq<Id>) => |c| == size
  }

  // Sizes fall, and components of one size keep their order.
  lemma LargestFirstMeans(components: seq<seq<Id>>, size: nat)
    ensures Ordered(LargestFirst(components), NoShorter)
    ensures Keep(LargestFirst(components), OfSize(size)) == Keep(components, OfSize(size))
  {
    hide Keep, Sort;
    SortStable(components, NoLonger, OfSize(size));
    SortStable(Sort(components, NoLonger), NoShorter, OfSize(size));
    SortOrdered(Sort(components, NoLonger), NoShorter);
  }

  function Sizes(components: seq<seq<Id>>): (sizes: seq<nat>)
    ensures |sizes| == |components|
    ensures forall k | 0 <= k < |components| :: sizes[k] == |components[k]|
  {
    seq(|components|, k requires 0 <= k < |components| => |components[k]|)
  }

  // The components an assignment sends to one shard, end to end.
  function Gather(components: seq<seq<Id>>, assign: seq<nat>, shard: nat): seq<Id>
    requires |components| == |assign|
  {
    if components == [] then []
    else
      var n := |components| - 1;
      Gather(components[..n], assign[..n], shard) + if assign[n] == shard then components[n] else []
  }

  lemma {:induction false} GatherSize(components: seq<seq<Id>>, assign: seq<nat>, shard: nat)
    requires |components| == |assign|
    ensures |Gather(components, assign, shard)| == Load(Sizes(components), assign, shard)
  {
    if components != [] {
      var n := |components| - 1;
      GatherSize(components[..n], assign[..n], shard);
      assert Sizes(components)[..n] == Sizes(components[..n]);
    }
  }

  lemma {:induction false} GatherMember(components: seq<seq<Id>>, assign: seq<nat>, shard: nat, x: Id)
    requires |components| == |assign|
    ensures x in Gather(components, assign, shard)
        <==> exists k :: 0 <= k < |components| && assign[k] == shard && x in components[k]
  {
    if components != [] {
      var n := |components| - 1;
      GatherMember(components[..n], assign[..n], shard, x);
      if k :| 0 <= k < |components| && assign[k] == shard && x in components[k] {
        assert k < n ==> x in components[..n][k] && assign[..n][k] == shard;
      }
    }
  }

  function Gathered(components: seq<seq<Id>>, assign: seq<nat>, shards: nat): (parts: seq<seq<Id>>)
    requires |components| == |assign|
    ensures |parts| == shards
    ensures forall q | 0 <= q < shards :: parts[q] == Gather(components, assign, q)
  {
    seq(shards, q requires 0 <= q < shards => Gather(components, assign, q))
  }

  lemma GatheredStep(components: seq<seq<Id>>, assign: seq<nat>, shards: nat)
    requires components != [] && IsAssignment(assign, |components|, shards)
    ensures var n := |components| - 1;
            var before := Gathered(components[..n], assign[..n], shards);
            Gathered(components, assign, shards) == before[assign[n] := before[assign[n]] + components[n]]
  {
    var n := |components| - 1;
    var before := Gathered(components[..n], assign[..n], shards);
    var after := before[assign[n] := before[assign[n]] + components[n]];
    forall q | 0 <= q < shards ensures Gathered(components, assign, shards)[q] == after[q] {
    }
  }

  // Every component lands whole in one shard, and nothing else is there.
  lemma {:induction false} GatheredConserves(components: seq<seq<Id>>, assign: seq<nat>, shards: nat)
    requires IsAssignment(assign, |components|, shards)
    ensures multiset(Flatten(Gathered(components, assign, shards))) == multiset(Flatten(components))
  {
    if components == [] {
      FlattenEmpties(Gathered(components, assign, shards));
    } else {
      var n := |components| - 1;
      GatheredConserves(components[..n], assign[..n], shards);
      GatheredStep(components, assign, shards);
      FlattenExtend(Gathered(components[..n], assign[..n], shards), assign[n], components[n]);
    }
  }

  // Where largest-first greedy sends the components, taken in the given order.
  function PlanOf(ordered: seq<seq<Id>>, workers: nat): (assign: seq<nat>)
    requires workers > 0
    ensures IsAssignment(assign, |ordered|, workers)
  {
    Greedy(Sizes(ordered), workers)
  }

  function PlannedShards(ordered: seq<seq<Id>>, workers: nat): (shards: seq<seq<Id>>)
    requires workers > 0
    ensures |shards| == workers
  {
    Gathered(ordered, PlanOf(ordered, workers), workers)
  }

  function PlannedSizes(ordered: seq<seq<Id>>, workers: nat): (sizes: seq<nat>)
    requires workers > 0
    ensures |sizes| == workers
  {
    Loads(Sizes(ordered), PlanOf(ordered, workers), workers)
  }

  lemma PlanNext(ordered: seq<seq<Id>>, workers: nat, n: nat)
    requires n < |ordered| && workers > 0
    ensures var assign := PlanOf(ordered[..n + 1], workers);
      assign[..n] == PlanOf(ordered[..n], workers) && assign[n] == FirstLeast(PlannedSizes(ordered[..n], workers))
  {
    hide Loads, FirstLeast;
    assert Sizes(ordered[..n + 1])[..n] == Sizes(ordered[..n]);
  }

  // One turn of the loop: the next component goes to the first least loaded shard.
  lemma PlanStep(ordered: seq<seq<Id>>, workers: nat, n: nat)
    requires n < |ordered| && workers > 0
    ensures var sizes, shards := PlannedSizes(ordered[..n], workers), PlannedShards(ordered[..n], workers);
            var target := FirstLeast(sizes);
            && PlannedSizes(ordered[..n + 1], workers) == sizes[target := sizes[target] + |ordered[n]|]
            && PlannedShards(ordered[..n + 1], workers) == shards[target := shards[target] + ordered[n]]
  {
    hide Greedy, Loads, Gathered, PlanOf, FirstLeast;
    var upTo := ordered[..n + 1];
    var assign := PlanOf(upTo, workers);
    assert upTo[..n] == ordered[..n];
    assert Sizes(upTo)[..n] == Sizes(ordered[..n]);
    PlanNext(ordered, workers, n);
    GatheredStep(upTo, assign, workers);
    LoadsStep(Sizes(upTo), assign, workers);
  }

  lemma PlanStart(workers: nat)
    requires workers > 0
    ensures PlannedSizes([], workers) == seq(workers, _ => 0)
    ensures PlannedShards([], workers) == seq(workers, _ => [])
  {
  }

  method BalanceShards(components: seq<seq<Id>>, workers: nat) returns (shards: seq<seq<Id>>)
    requires workers > 0
    ensures shards == PlannedShards(LargestFirst(components), workers)
  {
    hide PlannedShards, PlannedSizes, LargestFirst;
    PlanStart(workers);
    var ordered := LargestFirst(components);
    shards := seq(workers, _ => []);
    var sizes: seq<nat> := seq(workers, _ => 0);
    for n := 0 to |ordered|
      invariant |shards| == |sizes| == workers
      invariant sizes == PlannedSizes(ordered[..n], workers)
      invariant shards == PlannedShards(ordered[..n], workers)
    {
      var target := FirstLeast(sizes);
      PlanStep(ordered, workers, n);
      shards := shards[target := shards[target] + ordered[n]];
      sizes := sizes[target := sizes[target] + |ordered[n]|];
    }
    assert ordered[..|ordered|] == ordered;
  }

  // The fullest shard against any assignment of the same conversations: never
  // above (4 - 1/workers)/3 times that assignment's fullest shard.
  lemma ShardsNearOptimal(components: seq<seq<Id>>, workers: nat, other: seq<nat>, cap: nat, q: nat)
    requires q < workers
    requires Fits(Sizes(LargestFirst(components)), other, workers, cap)
    ensures 3 * workers * |PlannedShards(LargestFirst(components), workers)[q]| <= (4 * workers - 1) * cap
  {
    var ordered := LargestFirst(components);
    SortOrdered(Sort(components, NoLonger), NoShorter);
    LargestFirstFourThirds(Sizes(ordered), other, workers, cap, q);
    GatherSize(ordered, PlanOf(ordered, workers), q);
  }

  // ----- the shards handed to the workers

  // Every case id is in a shard, and a conversation never spans two shards.
  ghost predicate AreShards(cases: seq<Case>, shards: seq<seq<Id>>) {
    && (forall id | id in KnownIds(cases) :: exists q :: 0 <= q < |shards| && id in shards[q])
    && (forall q, x | 0 <= q < |shards| && x in shards[q] :: x in KnownIds(cases))
    && (forall q, r, x, y {:trigger x in shards[q], y in shards[r]} | 0 <= q < |shards| && 0 <= r < |shards|
          && x in shards[q] && y in shards[r] && SameConversation(cases, x, y) :: q == r)
  }

  // No shard parts a case from a prior.
  lemma PriorsStayTogether(cases: seq<Case>, shards: seq<seq<Id>>, c: Case, p: Id, q: nat)
    requires AreShards(cases, shards) && q < |shards|
    requires c in cases && c.id in shards[q] && p in c.priors && p in KnownIds(cases)
    ensures p in shards[q]
  {
    var links := PriorLinks(cases, KnownIds(cases));
    assert (c.id, p) in links;
    ConnectedLink(links, c.id, p);
    var r :| 0 <= r < |shards| && p in shards[r];
    assert SameConversation(cases, c.id, p);
  }

  // What a shard selects of some cases holds every declared prior that those hold.
  lemma PickIsClosed(cases: seq<Case>, chosen: seq<Case>, shards: seq<seq<Id>>, q: nat)
    requires AreShards(cases, shards) && q < |shards| && forall c | c in chosen :: c in cases
    ensures ClosedWithin(ById(Pick(chosen, Members(shards[q]))), ById(chosen))
  {
    var wanted := Members(shards[q]);
    var part, whole := ById(Pick(chosen, wanted)), ById(chosen);
    forall id | id in part ensures KeepsParents(part, whole, id) {
      PickRestricts(chosen, wanted, id);
      ByIdMember(chosen, id);
      forall p | p in part[id].priors && p in whole ensures p in part {
        ByIdMember(chosen, p);
        PriorsStayTogether(cases, shards, part[id], p, q);
        PickRestricts(chosen, wanted, p);
      }
    }
  }

  lemma KnownIffListed(cases: seq<Case>, parts: seq<seq<Id>>, id: Id)
    requires multiset(Flatten(parts)) == multiset(Ids(cases))
    ensures id in KnownIds(cases) <==> exists k :: 0 <= k < |parts| && id in parts[k]
  {
    FlattenMember(parts, id);
    assert id in Flatten(parts) <==> id in multiset(Ids(cases));
    assert id in Ids(cases) <==> id in KnownIds(cases) by {
      if id in KnownIds(cases) {
        var c :| c in cases && c.id == id;
        var k :| 0 <= k < |cases| && cases[k] == c;
        assert Ids(cases)[k] == id;
      }
    }
  }

  lemma ApartInAnyOrder(cases: seq<Case>, components: seq<seq<Id>>, ordered: seq<seq<Id>>, k: nat, l: nat, x: Id, y: Id)
    requires AreConversations(cases, components) && multiset(ordered) == multiset(components)
    requires k < |ordered| && l < |ordered| && x in ordered[k] && y in ordered[l] && SameConversation(cases, x, y)
    ensures k == l
  {
    var apart := (g: seq<Id>, h: seq<Id>) => forall x, y | x in g && y in h :: !SameConversation(cases, x, y);
    if k != l {
      PairsSurvive(components, ordered, apart, k, l);
    }
  }

  lemma GatheredAreShards(cases: seq<Case>, components: seq<seq<Id>>, ordered: seq<seq<Id>>, assign: seq<nat>,
                          workers: nat)
    requires AreConversations(cases, components) && multiset(ordered) == multiset(components)
    requires IsAssignment(assign, |ordered|, workers)
    ensures AreShards(cases, Gathered(ordered, assign, workers))
  {
    hide SameConversation, KnownIds, Gather;
    var shards := Gathered(ordered, assign, workers);
    GatheredConserves(ordered, assign, workers);
    FlattenPermute(ordered, components);
    forall id ensures id in KnownIds(cases) <==> exists q :: 0 <= q < |shards| && id in shards[q] {
      KnownIffListed(cases, shards, id);
    }
    forall q, r, x, y | 0 <= q < |shards| && 0 <= r < |shards|
                        && x in shards[q] && y in shards[r] && SameConversation(cases, x, y)
      ensures q == r
    {
      GatherMember(ordered, assign, q, x);
      GatherMember(ordered, assign, r, y);
      var k :| 0 <= k < |ordered| && assign[k] == q && x in ordered[k];
      var l :| 0 <= l < |ordered| && assign[l] == r && y in ordered[l];
      ApartInAnyOrder(cases, components, ordered, k, l, x, y);
    }
  }

  ghost predicate KeptAt(shards: seq<seq<Id>>, n: nat, kept: seq<seq<Id>>, from: seq<nat>, q: nat)
    requires |from| == |kept| && q < |kept| && n <= |shards|
  {
    from[q] < n && kept[q] == Sort(shards[from[q]], Le)
  }

  ghost predicate Covered(from: seq<nat>, k: nat) { k in from }

  // The first `n` shards without the empty ones, each sorted; `from` remembers where
  // each kept shard stood.
  ghost predicate IsKept(shards: seq<seq<Id>>, n: nat, kept: seq<seq<Id>>, from: seq<nat>) {
    && |from| == |kept| && n <= |shards|
    && (forall q: nat {:trigger KeptAt(shards, n, kept, from, q)} :: q < |kept| ==> KeptAt(shards, n, kept, from, q))
    && (forall q, r | 0 <= q < r < |from| :: from[q] < from[r])
    && (forall k: nat {:trigger Covered(from, k)} :: k < n && shards[k] != [] ==> Covered(from, k))
  }

  lemma KeepShard(shards: seq<seq<Id>>, n: nat, kept: seq<seq<Id>>, from: seq<nat>)
    requires n < |shards| && IsKept(shards, n, kept, from)
    ensures shards[n] == [] ==> IsKept(shards, n + 1, kept, from)
    ensures shards[n] != [] ==> IsKept(shards, n + 1, kept + [Sort(shards[n], Le)], from + [n])
  {
    var keep := shards[n] != [];
    var kept', from' := if keep then kept + [Sort(shards[n], Le)] else kept, if keep then from + [n] else from;
    var m := n + 1;
    forall q: nat | q < |kept'| ensures KeptAt(shards, m, kept', from', q) {
      if q < |kept| {
        assert KeptAt(shards, n, kept, from, q);
      }
    }
    forall q, r | 0 <= q < r < |from'| ensures from'[q] < from'[r] {
      assert KeptAt(shards, n, kept, from, q);
    }
    forall k: nat | k < n + 1 && shards[k] != [] ensures Covered(from', k) {
      if k < n {
        assert Covered(from, k);
      } else {
        assert from'[|from|] == k;
      }
    }
  }

  // The shards that hold anything, each in id order.
  method SortedShards(shards: seq<seq<Id>>) returns (kept: seq<seq<Id>>, ghost from: seq<nat>)
    ensures IsKept(shards, |shards|, kept, from)
  {
    kept, from := [], [];
    for n := 0 to |shards|
      invariant IsKept(shards, n, kept, from)
    {
      KeepShard(shards, n, kept, from);
      if shards[n] != [] {
        kept, from := kept + [Sort(shards[n], Le)], from + [n];
      }
    }
  }

  lemma SortKeepsMembers(s: seq<Id>, x: Id)
    ensures x in Sort(s, Le) <==> x in s
  {
    assert x in Sort(s, Le) <==> x in multiset(Sort(s, Le));
    assert x in s <==> x in multiset(s);
  }

  lemma KeptAreShards(cases: seq<Case>, shards: seq<seq<Id>>, kept: seq<seq<Id>>, from: seq<nat>)
    requires AreShards(cases, shards) && IsKept(shards, |shards|, kept, from)
    ensures AreShards(cases, kept)
  {
    forall s, x ensures x in Sort(s, Le) <==> x in s { SortKeepsMembers(s, x); }
    forall id | id in KnownIds(cases) ensures exists q :: 0 <= q < |kept| && id in kept[q] {
      var k: nat :| k < |shards| && id in shards[k];
      assert Covered(from, k);
      var q: nat :| q < |kept| && from[q] == k;
      assert KeptAt(shards, |shards|, kept, from, q);
    }
    forall q, x | 0 <= q < |kept| && x in kept[q] ensures x in KnownIds(cases) {
      assert KeptAt(shards, |shards|, kept, from, q);
    }
    forall q, r, x, y | 0 <= q < |kept| && 0 <= r < |kept|
                        && x in kept[q] && y in kept[r] && SameConversation(cases, x, y)
      ensures q == r
    {
      assert KeptAt(shards, |shards|, kept, from, q) && KeptAt(shards, |shards|, kept, from, r);
      assert x in shards[from[q]] && y in shards[from[r]];
    }
  }

  // No shard is larger than (4 - 1/workers)/3 times the fullest shard of any other assignment.
  ghost predicate NearOptimal(components: seq<seq<Id>>, workers: nat, shards: seq<seq<Id>>) {
    forall q, other, cap {:trigger shards[q], Fits(Sizes(LargestFirst(components)), other, workers, cap)} |
      0 <= q < |shards| && Fits(Sizes(LargestFirst(components)), other, workers, cap) ::
      3 * workers * |shards[q]| <= (4 * workers - 1) * cap
  }

  lemma KeptNearOptimal(components: seq<seq<Id>>, workers: nat, kept: seq<seq<Id>>, from: seq<nat>)
    requires workers > 0
    requires var shards := PlannedShards(LargestFirst(components), workers); IsKept(shards, |shards|, kept, from)
    ensures NearOptimal(components, workers, kept)
  {
    var shards := PlannedShards(LargestFirst(components), workers);
    forall q, other, cap | 0 <= q < |kept| && Fits(Sizes(LargestFirst(components)), other, workers, cap)
      ensures 3 * workers * |kept[q]| <= (4 * workers - 1) * cap
    {
      assert KeptAt(shards, |shards|, kept, from, q);
      ShardsNearOptimal(components, workers, other, cap, from[q]);
    }
  }

  lemma KeptInOrder(shards: seq<seq<Id>>, kept: seq<seq<Id>>, from: seq<nat>)
    requires IsKept(shards, |shards|, kept, from)
    ensures forall q | 0 <= q < |kept| :: Ordered(kept[q], Le)
  {
    LeIsTotalPreorder();
    forall q | 0 <= q < |kept| ensures Ordered(kept[q], Le) {
      assert KeptAt(shards, |shards|, kept, from, q);
      SortOrdered(shards[from[q]], Le);
    }
  }

  // A conversation and its shard, from `conversation_components` to the shard list;
  // without workers, `min` has nothing to choose from.
  method ShardIds(cases: seq<Case>, workers: int) returns (r: Result<seq<seq<Id>>>, ghost components: seq<seq<Id>>)
    ensures AreConversations(cases, components)
    ensures r.Raised? <==> workers <= 0 && cases != []
    ensures r.Ok? ==> AreShards(cases, r.value) && forall q | 0 <= q < |r.value| :: Ordered(r.value[q], Le)
    ensures r.Ok? && workers > 0 ==> |r.value| <= workers && NearOptimal(components, workers, r.value)
  {
    var groups := ConversationComponents(cases);
    components := groups;
    NoComponentsOfNothing(cases, groups);
    if workers <= 0 {
      if groups != [] {
        return Raised, components;
      }
      return Ok([]), components;
    }
    var shards := BalanceShards(groups, workers);
    GatheredAreShards(cases, groups, LargestFirst(groups), PlanOf(LargestFirst(groups), workers), workers);
    var kept, from := SortedShards(shards);
    KeptAreShards(cases, shards, kept, from);
    KeptNearOptimal(groups, workers, kept, from);
    KeptInOrder(shards, kept, from);
    forall q: nat | q < |from| ensures from[q] < workers {
      assert KeptAt(shards, |shards|, kept, from, q);
    }
    FewerPlaces(from, workers);
    return Ok(kept), components;
  }

  lemma NoComponentsOfNothing(cases: seq<Case>, components: seq<seq<Id>>)
    requires AreConversations(cases, components)
    ensures components == [] <==> cases == []
    ensures cases == [] ==> AreShards(cases, [])
  {
    assert |Flatten(components)| == |multiset(Flatten(components))| == |multiset(Ids(cases))| == |cases|;
    if components != [] {
      FlattenMember(components, components[0][0]);
    }
  }

  lemma {:induction false} FewerPlaces(from: seq<nat>, bound: nat)
    requires forall q | 0 <= q < |from| :: from[q] < bound
    requires forall q, r | 0 <= q < r < |from| :: from[q] < from[r]
    ensures |from| <= bound
  {
    if from != [] {
      FewerPlaces(from[..|from| - 1], from[|from| - 1]);
    }
  }
}
