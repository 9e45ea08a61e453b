// Splitting the frozen benchmark into shards that are benchmarks of their own: chains of
// conversations are found by union-find and dealt out in turn, none is ever cut.
module ShardBenchmark {
  import opened Balance
  import opened CaseIds
  import opened Conversations
  import opened ConversationShards
  import Replay
  import opened Sorting
  import opened UnionFind

  datatype Outcome = Shards(parts: seq<seq<Case>>) | UnknownPrior | NoShards | ChainSplit

  // ----- union towards the smaller id

  ghost predicate Below(root: map<Id, Id>, x: Id) { x in root && Le(root[x], x) }

  ghost predicate RootsBelow(root: map<Id, Id>) {
    forall x {:trigger Below(root, x)} :: x in root ==> Below(root, x)
  }

  // With every root below its members, a root is the smallest id of its chain.
  lemma RootIsSmallest(root: map<Id, Id>, links: set<(Id, Id)>, x: Id, y: Id)
    requires Represents(root, links) && RootsBelow(root) && x in root && y in root && Connected(links, x, y)
    ensures Connected(links, x, root[x]) && Le(root[x], y)
  {
    RootsAgreeIff(root, links, x, y);
    assert Anchored(root, links, x);
    assert Below(root, y);
  }

  lemma RedirectKeepsBelow(root: map<Id, Id>, a: Id, b: Id)
    requires RootsBelow(root) && Le(b, a)
    ensures RootsBelow(Redirect(root, a, b))
  {
    forall z | z in root ensures Below(Redirect(root, a, b), z) {
      assert Below(root, z);
      if root[z] == a {
        LeTransitive(b, a, z);
      }
    }
  }

  lemma RegisterKeepsBelow(root: map<Id, Id>, x: Id)
    requires RootsBelow(root)
    ensures RootsBelow(root[x := x])
  {
    LeTotal(x, x);
    var after := root[x := x];
    forall z | z in after ensures Below(after, z) {
      assert z != x ==> Below(root, z);
    }
  }

  method Register(forest: Forest<Id>, cases: seq<Case>)
    requires forest.Valid() && forest.parent == map[] && forest.links == {}
    modifies forest
    ensures forest.Valid() && forest.links == {} && RootsBelow(forest.root)
    ensures forest.parent.Keys == KnownIds(cases)
  {
    for n := 0 to |cases|
      invariant forest.Valid() && forest.links == {} && RootsBelow(forest.root)
      invariant forest.parent.Keys == KnownIds(cases[..n])
    {
      KnownIdsNext(cases, n);
      RegisterKeepsBelow(forest.root, cases[n].id);
      var x := forest.Find(cases[n].id);
    }
    assert cases[..|cases|] == cases;
  }

  lemma KnownIdsNext(cases: seq<Case>, n: nat)
    requires n < |cases|
    ensures KnownIds(cases[..n + 1]) == KnownIds(cases[..n]) + {cases[n].id}
  {
    assert cases[..n + 1] == cases[..n] + [cases[n]];
  }

  // `union`: the larger root is hung under the smaller.
  method UniteSmaller(forest: Forest<Id>, x: Id, y: Id)
    requires forest.Valid() && RootsBelow(forest.root) && x in forest.parent && y in forest.parent
    modifies forest
    ensures forest.Valid() && RootsBelow(forest.root) && forest.parent.Keys == old(forest.parent.Keys)
    ensures forest.links == old(forest.links) + {(x, y)}
  {
    var a := forest.Find(x);
    var b := forest.Find(y);
    assert Node(forest.parent, forest.root, forest.rank, forest.height, x);
    if a != b {
      LeTotal(a, b);
      if Le(a, b) {
        RedirectKeepsBelow(forest.root, b, a);
        forest.Attach(b, a, x, y);
      } else {
        RedirectKeepsBelow(forest.root, a, b);
        forest.Attach(a, b, x, y);
      }
    } else {
      forest.Absorb(x, y);
    }
  }

  ghost predicate AllKnown(cases: seq<Case>, ids: set<Id>) {
    forall k, p | 0 <= k < |cases| && p in cases[k].priors :: p in ids
  }

  // The loops over the cases and their priors; an unknown prior ends them.
  method UniteChains(forest: Forest<Id>, cases: seq<Case>, ids: set<Id>) returns (known: bool)
    requires forest.Valid() && RootsBelow(forest.root) && forest.links == {}
    requires forest.parent.Keys == ids && KnownIds(cases) <= ids
    modifies forest
    ensures known <==> AllKnown(cases, ids)
    ensures known ==> forest.Valid() && RootsBelow(forest.root) && forest.links == PriorLinks(cases, ids)
    ensures known ==> forest.parent.Keys == ids
  {
    hide PriorLinks, AllKnown, RootsBelow, KnownIds, LinksOf;
    NoneLinked(ids);
    for n := 0 to |cases|
      invariant forest.Valid() && RootsBelow(forest.root) && forest.links == PriorLinks(cases[..n], ids)
      invariant forest.parent.Keys == ids && AllKnown(cases[..n], ids)
    {
      CaseKnown(cases, ids, n);
      assert cases[..n + 1][..n] == cases[..n];
      PriorLinksStep(cases[..n + 1], ids);
      known := UniteWithPriors(forest, cases[n].id, cases[n].priors, ids);
      if !known {
        return;
      }
    }
    assert cases[..|cases|] == cases;
    known := true;
  }

  lemma NoneLinked(ids: set<Id>)
    ensures PriorLinks([], ids) == {} && AllKnown([], ids)
  {
  }

  lemma CaseKnown(cases: seq<Case>, ids: set<Id>, n: nat)
    requires n < |cases| && KnownIds(cases) <= ids
    ensures cases[n].id in ids
    ensures AllKnown(cases[..n], ids) && (forall p | p in cases[n].priors :: p in ids) ==> AllKnown(cases[..n + 1], ids)
    ensures !(forall p | p in cases[n].priors :: p in ids) ==> !AllKnown(cases, ids)
  {
    assert cases[n] in cases;
  }

  method UniteWithPriors(forest: Forest<Id>, id: Id, priors: seq<Id>, ids: set<Id>) returns (known: bool)
    requires forest.Valid() && RootsBelow(forest.root) && forest.parent.Keys == ids && id in ids
    modifies forest
    ensures known <==> forall p | p in priors :: p in ids
    ensures known ==> forest.Valid() && RootsBelow(forest.root) && forest.parent.Keys == ids
    ensures known ==> forest.links == old(forest.links) + LinksOf(id, priors, ids)
  {
    for m := 0 to |priors|
      invariant forest.Valid() && RootsBelow(forest.root) && forest.parent.Keys == ids
      invariant forest.links == old(forest.links) + LinksOf(id, priors[..m], ids)
      invariant forall p | p in priors[..m] :: p in ids
    {
      assert priors[m] in priors;
      if priors[m] !in ids {
        return false;
      }
      UniteSmaller(forest, id, priors[m]);
      assert priors[..m + 1][..m] == priors[..m];
      LinksOfStep(id, priors[..m + 1], ids);
    }
    assert priors[..|priors|] == priors;
    known := true;
  }

  // ----- dealing out the chains

  // The smallest id of a group.
  function Least(ids: seq<Id>): Id
    requires ids != []
  {
    if |ids| == 1 then ids[0]
    else
      var front := Least(ids[..|ids| - 1]);
      if Le(front, ids[|ids| - 1]) then front else ids[|ids| - 1]
  }

  predicate LeastFirst(x: seq<Id>, y: seq<Id>) { x == [] || (y != [] && Le(Least(x), Least(y))) }

  lemma {:induction false} LeastIsSmallest(ids: seq<Id>, x: Id)
    requires x in ids
    ensures Least(ids) in ids && Le(Least(ids), x)
  {
    LeTotal(x, x);
    if |ids| > 1 {
      var n := |ids| - 1;
      var front := Least(ids[..n]);
      LeTotal(front, ids[n]);
      LeastIsSmallest(ids[..n], ids[0]);
      if x in ids[..n] {
        LeastIsSmallest(ids[..n], x);
        if !Le(front, ids[n]) {
          LeTransitive(ids[n], front, x);
        }
      }
    }
  }

  lemma GroupsInOrder(cases: seq<Case>, groups: seq<seq<Id>>)
    requires AreConversations(cases, groups)
    ensures var ordered := Sort(groups, LeastFirst); AreConversations(cases, ordered) && Ordered(ordered, LeastFirst)
  {
    var ordered := Sort(groups, LeastFirst);
    LeIsTotalPreorder();
    SortOrdered(groups, LeastFirst);
    FlattenPermute(ordered, groups);
    forall i | 0 <= i < |ordered| ensures ordered[i] != [] {
      MemberOfEqualMultisets(ordered, groups, i);
    }
    forall i, j, x, y | 0 <= i < |ordered| && 0 <= j < |ordered| && x in ordered[i] && y in ordered[j]
      ensures i == j <==> SameConversation(cases, x, y)
    {
      MemberOfEqualMultisets(ordered, groups, i);
      if i == j {
        var g :| 0 <= g < |groups| && groups[g] == ordered[i];
        assert x in groups[g] && y in groups[g];
      } else if SameConversation(cases, x, y) {
        ApartInAnyOrder(cases, groups, ordered, i, j, x, y);
      }
    }
  }

  function InTurn(n: nat, shards: nat): (assign: seq<nat>)
    requires shards > 0
    ensures IsAssignment(assign, n, shards)
  {
    seq(n, k requires 0 <= k < n => k % shards)
  }

  // The chains that one shard is given.
  ghost function Share(assign: seq<nat>, q: nat): set<nat> {
    set k | 0 <= k < |assign| && assign[k] == q
  }

  // The chains spread evenly: every shard is given its share of them, and the first shards the remainder.
  lemma {:induction false} InTurnIsEven(n: nat, shards: nat, q: nat)
    requires q < shards
    ensures |Share(InTurn(n, shards), q)| == n / shards + if q < n % shards then 1 else 0
  {
    hide Share, InTurn;
    if n == 0 {
      NoShare(shards, q);
    } else {
      InTurnIsEven(n - 1, shards, q);
      ShareGrows(n - 1, shards, q);
      NextShare(n - 1, shards);
    }
  }

  lemma NoShare(shards: nat, q: nat)
    requires shards > 0
    ensures |Share(InTurn(0, shards), q)| == 0 && 0 / shards == 0 % shards == 0
  {
    assert Share(InTurn(0, shards), q) == {};
  }

  lemma ShareGrows(m: nat, shards: nat, q: nat)
    requires q < shards
    ensures |Share(InTurn(m + 1, shards), q)| == |Share(InTurn(m, shards), q)| + if m % shards == q then 1 else 0
  {
    var before, after := Share(InTurn(m, shards), q), Share(InTurn(m + 1, shards), q);
    assert forall k | 0 <= k < m :: InTurn(m + 1, shards)[k] == InTurn(m, shards)[k];
    assert after == before + if m % shards == q then {m} else {};
  }

  lemma NextShare(m: nat, shards: nat)
    requires shards > 0
    ensures (m + 1) % shards == (if m % shards == shards - 1 then 0 else m % shards + 1)
    ensures (m + 1) / shards == m / shards + if m % shards == shards - 1 then 1 else 0
  {
    var a, r := m / shards, m % shards;
    assert m == a * shards + r;
    if r == shards - 1 {
      NextMultiple(a, shards);
      DivideExactly(m + 1, a + 1, 0, shards);
    } else {
      DivideExactly(m + 1, a, r + 1, shards);
    }
  }

  lemma NextMultiple(a: nat, n: nat)
    ensures (a + 1) * n == a * n + n
  {
  }

  lemma DivideExactly(x: nat, a: nat, r: nat, n: nat)
    requires r < n && x == a * n + r
    ensures x / n == a && x % n == r
  {
    var b, s := x / n, x % n;
    assert x == b * n + s;
    if b < a {
      TimesAtLeast(b + 1, a, n);
      NextMultiple(b, n);
    } else if b > a {
      TimesAtLeast(a + 1, b, n);
      NextMultiple(a, n);
    }
  }

  lemma TimesAtLeast(a: nat, b: nat, n: nat)
    requires a <= b
    ensures a * n <= b * n
  {
  }

  // The ids of each shard, the groups taken round-robin.
  method DealOut(groups: seq<seq<Id>>, shards: nat) returns (shardIds: seq<seq<Id>>)
    requires shards > 0
    ensures shardIds == Gathered(groups, InTurn(|groups|, shards), shards)
  {
    shardIds := seq(shards, _ => []);
    for position := 0 to |groups|
      invariant shardIds == Gathered(groups[..position], InTurn(position, shards), shards)
    {
      var upTo := groups[..position + 1];
      assert upTo[..position] == groups[..position];
      assert InTurn(position + 1, shards)[..position] == InTurn(position, shards);
      GatheredStep(upTo, InTurn(position + 1, shards), shards);
      var target := position % shards;
      shardIds := shardIds[target := shardIds[target] + groups[position]];
    }
    assert groups[..|groups|] == groups;
  }

  // ----- the shards' cases

  function Parts(cases: seq<Case>, shardIds: seq<seq<Id>>): (parts: seq<seq<Case>>)
    ensures |parts| == |shardIds|
    ensures forall q | 0 <= q < |parts| :: parts[q] == Pick(cases, Members(shardIds[q]))
  {
    seq(|shardIds|, q requires 0 <= q < |shardIds| => Pick(cases, Members(shardIds[q])))
  }

  ghost predicate OneHome(shardIds: seq<seq<Id>>, id: Id, q: nat) {
    q < |shardIds| && id in shardIds[q] && forall r | 0 <= r < |shardIds| && id in shardIds[r] :: r == q
  }

  ghost predicate Homed(shardIds: seq<seq<Id>>, id: Id) { exists q: nat :: OneHome(shardIds, id, q) }

  lemma PartsStep(cases: seq<Case>, shardIds: seq<seq<Id>>, n: nat, q: nat)
    requires n < |cases| && OneHome(shardIds, cases[n].id, q)
    ensures var before := Parts(cases[..n], shardIds);
      Parts(cases[..n + 1], shardIds) == before[q := before[q] + [cases[n]]]
  {
    var before, after := Parts(cases[..n], shardIds), Parts(cases[..n + 1], shardIds);
    assert cases[..n + 1][..n] == cases[..n];
    forall r | 0 <= r < |shardIds| ensures after[r] == if r == q then before[r] + [cases[n]] else before[r] {
      assert before[r] + [] == before[r];
    }
  }

  // When every case has one home, the parts hold each case once.
  lemma {:induction false} PartsConserve(cases: seq<Case>, shardIds: seq<seq<Id>>, n: nat)
    requires n <= |cases| && forall k | 0 <= k < |cases| :: Homed(shardIds, cases[k].id)
    ensures multiset(Flatten(Parts(cases[..n], shardIds))) == multiset(cases[..n])
  {
    hide OneHome, Homed, Parts;
    if n == 0 {
      PartsOfNothing(shardIds);
    } else {
      var m := n - 1;
      PartsConserve(cases, shardIds, m);
      PartsGrow(cases, shardIds, m);
      PrefixContents(cases, m);
    }
  }

  lemma PartsGrow(cases: seq<Case>, shardIds: seq<seq<Id>>, n: nat)
    requires n < |cases| && Homed(shardIds, cases[n].id)
    ensures multiset(Flatten(Parts(cases[..n + 1], shardIds))) ==
      multiset(Flatten(Parts(cases[..n], shardIds))) + multiset([cases[n]])
  {
    hide OneHome, Homed, Parts;
    var q := HomeOf(shardIds, cases[n].id);
    PartsStep(cases, shardIds, n, q);
    FlattenExtend(Parts(cases[..n], shardIds), q, [cases[n]]);
  }

  lemma PrefixContents<T>(s: seq<T>, n: nat)
    requires n < |s|
    ensures multiset(s[..n + 1]) == multiset(s[..n]) + multiset([s[n]])
  {
    assert s[..n + 1] == s[..n] + [s[n]];
  }

  lemma HomeOf(shardIds: seq<seq<Id>>, id: Id) returns (q: nat)
    requires Homed(shardIds, id)
    ensures OneHome(shardIds, id, q) && q < |shardIds|
  {
    q :| OneHome(shardIds, id, q);
  }

  lemma PartsOfNothing(shardIds: seq<seq<Id>>)
    ensures Flatten(Parts([], shardIds)) == []
  {
    FlattenEmpties(Parts([], shardIds));
  }

  lemma ShardsAreHomes(cases: seq<Case>, shardIds: seq<seq<Id>>, k: nat)
    requires AreShards(cases, shardIds) && k < |cases|
    ensures Homed(shardIds, cases[k].id)
  {
    var id := cases[k].id;
    assert cases[k] in cases;
    assert id in KnownIds(cases);
    var q: nat :| q < |shardIds| && id in shardIds[q];
    ConnectedRefl(PriorLinks(cases, KnownIds(cases)), id);
    assert SameConversation(cases, id, id);
    assert OneHome(shardIds, id, q);
  }

  // ----- every shard can be replayed on its own

  // Every prior is a case further up.
  ghost predicate PriorsEarlier(cases: seq<Case>) {
    forall k, p | 0 <= k < |cases| && p in cases[k].priors :: HasIdBefore(cases, p, k)
  }

  ghost predicate HasIdBefore(cases: seq<Case>, id: Id, k: nat) {
    exists j :: 0 <= j < k && j < |cases| && cases[j].id == id
  }

  // Benchmark order puts priors first in every shard when it does so in the benchmark.
  lemma {:induction false} ShardsKeepPriorsEarlier(cases: seq<Case>, shardIds: seq<seq<Id>>, q: nat, n: nat)
    requires AreShards(cases, shardIds) && PriorsEarlier(cases) && q < |shardIds| && n <= |cases|
    ensures PriorsEarlier(Pick(cases[..n], Members(shardIds[q])))
  {
    if n > 0 {
      var m, members := n - 1, Members(shardIds[q]);
      ShardsKeepPriorsEarlier(cases, shardIds, q, m);
      assert cases[..n][..m] == cases[..m];
      var front := Pick(cases[..m], members);
      if cases[m].id in members {
        forall p | p in cases[m].priors ensures HasIdBefore(front, p, |front|) {
          KeptPrior(cases, shardIds, q, m, p);
        }
        AppendKeepsEarlier(front, cases[m]);
        assert Pick(cases[..n], members) == front + [cases[m]];
      } else {
        assert Pick(cases[..n], members) == front + [] == front;
      }
    }
  }

  lemma KeptPrior(cases: seq<Case>, shardIds: seq<seq<Id>>, q: nat, m: nat, p: Id)
    requires AreShards(cases, shardIds) && PriorsEarlier(cases) && q < |shardIds| && m < |cases|
    requires cases[m].id in shardIds[q] && p in cases[m].priors
    ensures var front := Pick(cases[..m], Members(shardIds[q])); HasIdBefore(front, p, |front|)
  {
    var front := Pick(cases[..m], Members(shardIds[q]));
    assert HasIdBefore(cases, p, m);
    var j :| 0 <= j < m && cases[j].id == p;
    assert cases[j] in cases && cases[..m][j] == cases[j];
    PriorsStayTogether(cases, shardIds, cases[m], p, q);
    PickMember(cases[..m], Members(shardIds[q]), cases[j]);
    var i :| 0 <= i < |front| && front[i] == cases[j];
  }

  lemma AppendKeepsEarlier(front: seq<Case>, last: Case)
    requires PriorsEarlier(front) && forall p | p in last.priors :: HasIdBefore(front, p, |front|)
    ensures PriorsEarlier(front + [last])
  {
    var all := front + [last];
    forall k, p | 0 <= k < |all| && p in all[k].priors ensures HasIdBefore(all, p, k) {
      assert HasIdBefore(front, p, k);
      var j :| 0 <= j < k && j < |front| && front[j].id == p;
      assert all[j].id == p;
    }
  }

  lemma {:induction false} PickPrefix(cases: seq<Case>, members: set<Id>, k: nat)
    requires k < |cases| && cases[k].id in members
    ensures var front, all := Pick(cases[..k], members), Pick(cases, members);
      |front| < |all| && all[..|front|] == front && all[|front|] == cases[k]
  {
    var n := |cases| - 1;
    if k < n {
      PickPrefix(cases[..n], members, k);
      assert cases[..n][..k] == cases[..k];
    }
  }

  // What stands before a case in its shard stands before it in the benchmark.
  lemma ShardsShowPriorsEarlier(cases: seq<Case>, shardIds: seq<seq<Id>>, k: nat, p: Id)
    requires AreShards(cases, shardIds) && k < |cases| && p in cases[k].priors
    requires forall q | 0 <= q < |shardIds| :: PriorsEarlier(Pick(cases, Members(shardIds[q])))
    ensures HasIdBefore(cases, p, k)
  {
    ShardsAreHomes(cases, shardIds, k);
    var q := HomeOf(shardIds, cases[k].id);
    var members := Members(shardIds[q]);
    var front, part := Pick(cases[..k], members), Pick(cases, members);
    PickPrefix(cases, members, k);
    assert HasIdBefore(part, p, |front|);
    var j :| 0 <= j < |front| && part[j].id == p;
    assert front[j] == part[..|front|][j];
    PickMember(cases[..k], members, front[j]);
    var i :| 0 <= i < k && cases[..k][i] == front[j];
    assert cases[i].id == p;
  }

  // Every shard has its priors first exactly when the benchmark has.
  lemma PriorsEarlierIff(cases: seq<Case>, shardIds: seq<seq<Id>>)
    requires AreShards(cases, shardIds)
    ensures PriorsEarlier(cases) <==> forall q | 0 <= q < |shardIds| :: PriorsEarlier(Parts(cases, shardIds)[q])
  {
    hide PriorsEarlier, AreShards;
    assert cases[..|cases|] == cases;
    if PriorsEarlier(cases) {
      forall q | 0 <= q < |shardIds| ensures PriorsEarlier(Parts(cases, shardIds)[q]) {
        ShardsKeepPriorsEarlier(cases, shardIds, q, |cases|);
      }
    }
    if forall q | 0 <= q < |shardIds| :: PriorsEarlier(Parts(cases, shardIds)[q]) {
      forall q | 0 <= q < |shardIds| ensures PriorsEarlier(Pick(cases, Members(shardIds[q]))) {
        assert Parts(cases, shardIds)[q] == Pick(cases, Members(shardIds[q]));
      }
      AllPriorsEarlier(cases, shardIds);
    }
  }

  lemma AllPriorsEarlier(cases: seq<Case>, shardIds: seq<seq<Id>>)
    requires AreShards(cases, shardIds)
    requires forall q | 0 <= q < |shardIds| :: PriorsEarlier(Pick(cases, Members(shardIds[q])))
    ensures PriorsEarlier(cases)
  {
    forall k, p | 0 <= k < |cases| && p in cases[k].priors ensures HasIdBefore(cases, p, k) {
      ShardsShowPriorsEarlier(cases, shardIds, k, p);
    }
  }

  // A shard replays its cases as the whole benchmark replays them.
  ghost predicate ReplaysAlone(part: seq<Case>, cases: seq<Case>, link: Replay.Linker) {
    forall id | id in ById(part) :: Replay.Linked(ById(part), link, id) == Replay.Linked(ById(cases), link, id)
  }

  ghost predicate FailsAlone(part: seq<Case>, cases: seq<Case>) {
    forall id | id in ById(part) :: Replay.Doomed(ById(part), id) <==> Replay.Doomed(ById(cases), id)
  }

  // Every value a case is linked to, and every failure, is the same in its shard and in the benchmark.
  lemma ShardReplaysAlone(cases: seq<Case>, shardIds: seq<seq<Id>>, q: nat, link: Replay.Linker)
    requires AreShards(cases, shardIds) && q < |shardIds|
    ensures ReplaysAlone(Parts(cases, shardIds)[q], cases, link) && FailsAlone(Parts(cases, shardIds)[q], cases)
  {
    var part := Parts(cases, shardIds)[q];
    PickIsClosed(cases, cases, shardIds, q);
    forall id | id in ById(part)
      ensures Replay.Linked(ById(part), link, id) == Replay.Linked(ById(cases), link, id)
      ensures Replay.Doomed(ById(part), id) <==> Replay.Doomed(ById(cases), id)
    {
      Replay.ReplayIsLocal(ById(part), ById(cases), link, id);
    }
  }

  // ----- the splitter

  // The shard of every id.
  method Membership(shardIds: seq<seq<Id>>) returns (home: map<Id, nat>)
    ensures forall id | id in home :: home[id] < |shardIds| && id in shardIds[home[id]]
    ensures forall q, id | 0 <= q < |shardIds| && id in shardIds[q] :: id in home
  {
    home := map[];
    for q := 0 to |shardIds|
      invariant forall id | id in home :: home[id] < |shardIds| && id in shardIds[home[id]]
      invariant forall r, id | 0 <= r < q && id in shardIds[r] :: id in home
    {
      var ids := shardIds[q];
      for k := 0 to |ids|
        invariant forall id | id in home :: home[id] < |shardIds| && id in shardIds[home[id]]
        invariant forall r, id | 0 <= r < q && id in shardIds[r] :: id in home
        invariant forall id | id in ids[..k] :: id in home
      {
        home := home[ids[k] := q];
      }
      assert ids[..|ids|] == ids;
    }
  }

  // The assertion that no chain is split; it holds on every set of shards.
  method ChainsWhole(cases: seq<Case>, shardIds: seq<seq<Id>>) returns (whole: bool)
    requires AreShards(cases, shardIds) && AllKnown(cases, KnownIds(cases))
    ensures whole
  {
    var home := Membership(shardIds);
    for n := 0 to |cases| {
      assert cases[n] in cases && cases[n].id in KnownIds(cases);
      var priors := cases[n].priors;
      for m := 0 to |priors| {
        assert priors[m] in priors;
        PriorsStayTogether(cases, shardIds, cases[n], priors[m], home[cases[n].id]);
        ConnectedLink(PriorLinks(cases, KnownIds(cases)), cases[n].id, priors[m]);
        assert SameConversation(cases, cases[n].id, priors[m]);
        if home[priors[m]] != home[cases[n].id] {
          return false;
        }
      }
    }
    whole := true;
  }

  // `chains` are the groups in the order in which they were dealt out.
  method Split(cases: seq<Case>, shards: int) returns (r: Outcome, ghost chains: seq<seq<Id>>)
    ensures !r.ChainSplit?
    ensures r.UnknownPrior? <==> !AllKnown(cases, KnownIds(cases))
    ensures r.NoShards? <==> AllKnown(cases, KnownIds(cases)) && shards <= 0 && cases != []
    ensures r.Shards? ==> AreConversations(cases, chains) && Ordered(chains, LeastFirst)
    ensures r.Shards? && shards > 0 ==> r.parts == Parts(cases, Gathered(chains, InTurn(|chains|, shards), shards))
    ensures r.Shards? && shards > 0 ==>
      forall k, x | 0 <= k < |chains| && x in chains[k] :: HasCase(r.parts[k % shards], x)
    ensures r.Shards? ==> multiset(Flatten(r.parts)) == multiset(cases) && (shards >= 0 ==> |r.parts| == shards)
    ensures r.Shards? ==> exists shardIds :: AreShards(cases, shardIds) && r.parts == Parts(cases, shardIds)
    ensures r.Shards? ==> (PriorsEarlier(cases) <==> forall q | 0 <= q < |r.parts| :: PriorsEarlier(r.parts[q]))
    ensures r.Shards? ==> forall q, link | 0 <= q < |r.parts| :: ReplaysAlone(r.parts[q], cases, link)
    ensures r.Shards? ==> forall q | 0 <= q < |r.parts| :: FailsAlone(r.parts[q], cases)
  {
    chains := [];
    var forest := new Forest<Id>();
    var ids := set c | c in cases :: c.id;
    Register(forest, cases);
    var known := UniteChains(forest, cases, ids);
    if !known {
      return UnknownPrior, chains;
    }
    var groups := GroupByRoot(forest, cases);
    var ordered := Sort(groups, LeastFirst);
    GroupsInOrder(cases, groups);
    chains := ordered;
    NoComponentsOfNothing(cases, ordered);
    if shards <= 0 {
      if ordered != [] {
        return NoShards, chains;
      }
      assert Parts(cases, []) == [];
      return Shards([]), chains;
    }
    var shardIds := DealOut(ordered, shards);
    GatheredAreShards(cases, ordered, ordered, InTurn(|ordered|, shards), shards);
    var whole := ChainsWhole(cases, shardIds);
    if !whole {
      return ChainSplit, chains;
    }
    SplitIsWhole(cases, shardIds);
    ChainsDealtOut(cases, ordered, shards);
    return Shards(Parts(cases, shardIds)), chains;
  }

  ghost predicate HasCase(part: seq<Case>, id: Id) { exists c :: c in part && c.id == id }

  // The k-th chain stands in shard k modulo the shard count.
  lemma ChainsDealtOut(cases: seq<Case>, chains: seq<seq<Id>>, shards: nat)
    requires AreConversations(cases, chains) && shards > 0
    ensures var parts := Parts(cases, Gathered(chains, InTurn(|chains|, shards), shards));
      forall k, x | 0 <= k < |chains| && x in chains[k] :: HasCase(parts[k % shards], x)
  {
    var assign := InTurn(|chains|, shards);
    var shardIds := Gathered(chains, assign, shards);
    forall k, x | 0 <= k < |chains| && x in chains[k]
      ensures HasCase(Parts(cases, shardIds)[k % shards], x)
    {
      GatherMember(chains, assign, k % shards, x);
      assert assign[k] == k % shards;
      KnownIffListed(cases, chains, x);
      var c :| c in cases && c.id == x;
      PickMember(cases, Members(shardIds[k % shards]), c);
    }
  }

  lemma SplitIsWhole(cases: seq<Case>, shardIds: seq<seq<Id>>)
    requires AreShards(cases, shardIds)
    ensures multiset(Flatten(Parts(cases, shardIds))) == multiset(cases)
    ensures PriorsEarlier(cases) <==> forall q | 0 <= q < |shardIds| :: PriorsEarlier(Parts(cases, shardIds)[q])
    ensures forall q, link | 0 <= q < |shardIds| :: ReplaysAlone(Parts(cases, shardIds)[q], cases, link)
    ensures forall q | 0 <= q < |shardIds| :: FailsAlone(Parts(cases, shardIds)[q], cases)
  {
    hide ReplaysAlone, FailsAlone, PriorsEarlier, AreShards, Homed, Pick;
    forall q, link | 0 <= q < |shardIds| ensures ReplaysAlone(Parts(cases, shardIds)[q], cases, link) {
      ShardReplaysAlone(cases, shardIds, q, link);
    }
    forall q | 0 <= q < |shardIds| ensures FailsAlone(Parts(cases, shardIds)[q], cases) {
      ShardReplaysAlone(cases, shardIds, q, (question, entities) => []);
    }
    forall k | 0 <= k < |cases| ensures Homed(shardIds, cases[k].id) { ShardsAreHomes(cases, shardIds, k); }
    PartsConserve(cases, shardIds, |cases|);
    assert cases[..|cases|] == cases;
    PriorsEarlierIff(cases, shardIds);
  }

  // A child in front of its parent stays there in whatever shard holds them.
  lemma ChildFirst(cases: seq<Case>, shardIds: seq<seq<Id>>)
    requires cases == [Case("b", ["a"], true, {}, "and then?"), Case("a", [], true, {}, "what?")]
    requires AreShards(cases, shardIds)
    ensures exists q :: 0 <= q < |shardIds| && !PriorsEarlier(Parts(cases, shardIds)[q])
  {
    assert "a" in cases[0].priors;
    assert !HasIdBefore(cases, "a", 0);
    assert !PriorsEarlier(cases);
    PriorsEarlierIff(cases, shardIds);
  }
}
