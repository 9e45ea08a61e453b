// Union-find over a `parent` dictionary with path halving and no ranks, as the
// sharding scripts write it, proved against connectivity in the link graph.
module UnionFind {

  ghost predicate Linked<T>(links: set<(T, T)>, x: T, y: T) {
    (x, y) in links || (y, x) in links
  }

  ghost predicate IsPath<T>(links: set<(T, T)>, p: seq<T>) {
    |p| > 0 && forall i {:trigger p[i]} | 0 <= i < |p| - 1 :: Linked(links, p[i], p[i + 1])
  }

  ghost predicate Joins<T>(links: set<(T, T)>, p: seq<T>, x: T, y: T) {
    IsPath(links, p) && p[0] == x && p[|p| - 1] == y
  }

  // Undirected reachability: the weakly connected components of the links.
  ghost predicate Connected<T(!new)>(links: set<(T, T)>, x: T, y: T) {
    exists p :: Joins(links, p, x, y)
  }

  lemma ConnectedRefl<T(!new)>(links: set<(T, T)>, x: T)
    ensures Connected(links, x, x)
  {
    assert Joins(links, [x], x, x);
  }

  lemma ConnectedLink<T(!new)>(links: set<(T, T)>, x: T, y: T)
    requires Linked(links, x, y)
    ensures Connected(links, x, y)
  {
    assert Joins(links, [x, y], x, y);
  }

  lemma ConnectedTrans<T(!new)>(links: set<(T, T)>, x: T, y: T, z: T)
    requires Connected(links, x, y) && Connected(links, y, z)
    ensures Connected(links, x, z)
  {
    var p :| Joins(links, p, x, y);
    var q :| Joins(links, q, y, z);
    var r := p + q[1..];
    forall i | 0 <= i < |r| - 1 ensures Linked(links, r[i], r[i + 1]) {
      if i < |p| - 1 {
        assert r[i] == p[i] && r[i + 1] == p[i + 1];
      } else {
        var j := i - (|p| - 1);
        assert r[i] == q[j] && r[i + 1] == q[j + 1];
      }
    }
    assert Joins(links, r, x, z);
  }

  lemma ConnectedSym<T(!new)>(links: set<(T, T)>, x: T, y: T)
    requires Connected(links, x, y)
    ensures Connected(links, y, x)
  {
    var p :| Joins(links, p, x, y);
    var r := seq(|p|, i requires 0 <= i < |p| => p[|p| - 1 - i]);
    forall i | 0 <= i < |r| - 1 ensures Linked(links, r[i], r[i + 1]) {
      var j := |p| - 2 - i;
      assert r[i] == p[j + 1] && r[i + 1] == p[j];
      assert Linked(links, p[j], p[j + 1]);
    }
    assert Joins(links, r, y, x);
  }

  lemma ConnectedMono<T(!new)>(links: set<(T, T)>, more: set<(T, T)>, x: T, y: T)
    requires links <= more && Connected(links, x, y)
    ensures Connected(more, x, y)
  {
    var p :| Joins(links, p, x, y);
    forall i | 0 <= i < |p| - 1 ensures Linked(more, p[i], p[i + 1]) {
      assert Linked(links, p[i], p[i + 1]);
    }
    assert Joins(more, p, x, y);
  }

  // A label that agrees across every link is constant along every path.
  lemma {:induction false} LabelAlongPath<T>(links: set<(T, T)>, tag: map<T, T>, p: seq<T>)
    requires IsPath(links, p) && p[0] in tag
    requires forall e | e in links :: e.0 in tag && e.1 in tag && tag[e.0] == tag[e.1]
    ensures p[|p| - 1] in tag && tag[p[|p| - 1]] == tag[p[0]]
    decreases |p|
  {
    if |p| >= 2 {
      assert Linked(links, p[0], p[1]);
      var q := p[1..];
      forall i | 0 <= i < |q| - 1 ensures Linked(links, q[i], q[i + 1]) {
        assert q[i] == p[i + 1] && q[i + 1] == p[i + 2];
      }
      LabelAlongPath(links, tag, q);
    }
  }

  // One entry of the dictionary: its parent is registered and shares its
  // representative, the representative is its own parent, and the rank climbs.
  ghost predicate Node<T>(parent: map<T, T>, root: map<T, T>, rank: map<T, nat>, height: nat, x: T) {
    && x in parent && x in root && x in rank
    && parent[x] in parent && parent[x] in root && parent[x] in rank
    && root[x] in parent && parent[root[x]] == root[x]
    && rank[x] <= height
    && root[parent[x]] == root[x]
    && (parent[x] == x ==> root[x] == x)
    && (parent[x] != x ==> rank[x] < rank[parent[x]])
  }

  ghost predicate IsForest<T(!new)>(parent: map<T, T>, root: map<T, T>, rank: map<T, nat>, height: nat) {
    && root.Keys == parent.Keys && rank.Keys == parent.Keys
    && forall x {:trigger Node(parent, root, rank, height, x)} :: x in parent ==> Node(parent, root, rank, height, x)
  }

  ghost predicate Agrees<T>(root: map<T, T>, x: T, y: T) {
    x in root && y in root && root[x] == root[y]
  }

  ghost predicate Anchored<T(!new)>(root: map<T, T>, links: set<(T, T)>, x: T) {
    x in root && root[x] in root && Connected(links, x, root[x])
  }

  // The representatives describe the links: both ends of a link share one, and
  // every id is connected to its own.
  ghost predicate Represents<T(!new)>(root: map<T, T>, links: set<(T, T)>) {
    && (forall x, y {:trigger Agrees(root, x, y)} :: (x, y) in links ==> Agrees(root, x, y))
    && (forall x {:trigger Anchored(root, links, x)} :: x in root ==> Anchored(root, links, x))
  }

  lemma RegisterKeepsForest<T(!new)>(parent: map<T, T>, root: map<T, T>, rank: map<T, nat>, height: nat, x: T)
    requires IsForest(parent, root, rank, height) && x !in parent
    ensures IsForest(parent[x := x], root[x := x], rank[x := 0], height)
  {
    forall z | z in parent ensures Node(parent[x := x], root[x := x], rank[x := 0], height, z) {
      assert Node(parent, root, rank, height, z);
    }
  }

  lemma RegisterKeepsLinks<T(!new)>(root: map<T, T>, links: set<(T, T)>, x: T)
    requires Represents(root, links) && x !in root
    ensures Represents(root[x := x], links)
  {
    var after := root[x := x];
    forall y, z | (y, z) in links ensures Agrees(after, y, z) {
      assert Agrees(root, y, z);
    }
    forall z | z in after ensures Anchored(after, links, z) {
      if z == x {
        ConnectedRefl(links, x);
      } else {
        assert Anchored(root, links, z);
      }
    }
  }

  lemma HalvingKeepsForest<T(!new)>(parent: map<T, T>, root: map<T, T>, rank: map<T, nat>, height: nat, x: T)
    requires IsForest(parent, root, rank, height) && x in parent && parent[x] != x
    ensures parent[x] in parent
    ensures IsForest(parent[x := parent[parent[x]]], root, rank, height)
    ensures parent[parent[x]] in parent && rank[x] < rank[parent[parent[x]]] <= height
    ensures root[parent[parent[x]]] == root[x]
  {
    assert Node(parent, root, rank, height, x);
    assert Node(parent, root, rank, height, parent[x]);
    var up := parent[parent[x]];
    assert Node(parent, root, rank, height, up);
    forall z | z in parent ensures Node(parent[x := up], root, rank, height, z) {
      assert Node(parent, root, rank, height, z);
    }
  }

  // What hanging root `a` under root `b` does to the representatives.
  ghost function Redirect<T>(root: map<T, T>, a: T, b: T): map<T, T> {
    map z | z in root :: if root[z] == a then b else root[z]
  }

  ghost function Lift<T>(rank: map<T, nat>, a: T, b: T): map<T, nat>
    requires a in rank && b in rank
  {
    rank[b := if rank[b] > rank[a] then rank[b] else rank[a] + 1]
  }

  lemma AttachKeepsForest<T(!new)>(parent: map<T, T>, root: map<T, T>, rank: map<T, nat>, height: nat, a: T, b: T)
    requires IsForest(parent, root, rank, height)
    requires a in parent && b in parent && parent[a] == a && parent[b] == b && a != b
    ensures IsForest(parent[a := b], Redirect(root, a, b), Lift(rank, a, b), height + Lift(rank, a, b)[b])
  {
    assert Node(parent, root, rank, height, a) && Node(parent, root, rank, height, b);
    var root', rank' := Redirect(root, a, b), Lift(rank, a, b);
    forall z | z in parent ensures Node(parent[a := b], root', rank', height + rank'[b], z) {
      assert Node(parent, root, rank, height, z);
      assert Node(parent, root, rank, height, parent[z]);
    }
  }

  lemma AttachKeepsLinks<T(!new)>(root: map<T, T>, links: set<(T, T)>, a: T, b: T, x: T, y: T)
    requires Represents(root, links)
    requires x in root && y in root && {root[x], root[y]} == {a, b}
    ensures Represents(Redirect(root, a, b), links + {(x, y)})
  {
    var after, more := Redirect(root, a, b), links + {(x, y)};
    AnchorsSurvive(root, links, x, y, x);
    AnchorsSurvive(root, links, x, y, y);
    BridgeRoots(more, root[x], x, y, root[y]);
    forall z | z in after ensures Anchored(after, more, z) {
      AnchorsSurvive(root, links, x, y, z);
      if root[z] == a {
        ConnectedTrans(more, z, a, b);
      }
    }
    forall v, w | (v, w) in more ensures Agrees(after, v, w) {
      assert (v, w) in links ==> Agrees(root, v, w);
    }
  }

  lemma AnchorsSurvive<T(!new)>(root: map<T, T>, links: set<(T, T)>, x: T, y: T, z: T)
    requires Represents(root, links) && z in root
    ensures Anchored(root, links + {(x, y)}, z)
  {
    assert Anchored(root, links, z);
    ConnectedMono(links, links + {(x, y)}, z, root[z]);
  }

  lemma AbsorbKeepsLinks<T(!new)>(root: map<T, T>, links: set<(T, T)>, x: T, y: T)
    requires Represents(root, links)
    requires x in root && y in root && root[x] == root[y]
    ensures Represents(root, links + {(x, y)})
  {
    forall z | z in root ensures Anchored(root, links + {(x, y)}, z) {
      AnchorsSurvive(root, links, x, y, z);
    }
    forall v, w | (v, w) in links + {(x, y)} ensures Agrees(root, v, w) {
      assert (v, w) in links ==> Agrees(root, v, w);
    }
  }

  lemma BridgeRoots<T(!new)>(links: set<(T, T)>, a: T, x: T, y: T, b: T)
    requires Connected(links, x, a) && Connected(links, y, b) && Linked(links, x, y)
    ensures Connected(links, a, b) && Connected(links, b, a)
  {
    ConnectedSym(links, x, a);
    ConnectedLink(links, x, y);
    ConnectedTrans(links, a, x, y);
    ConnectedTrans(links, a, y, b);
    ConnectedSym(links, a, b);
  }

  // Equal representatives exactly when the links connect the two ids.
  lemma RootsAgreeIff<T(!new)>(root: map<T, T>, links: set<(T, T)>, x: T, y: T)
    requires Represents(root, links) && x in root && y in root
    ensures root[x] == root[y] <==> Connected(links, x, y)
  {
    if root[x] == root[y] {
      assert Anchored(root, links, x) && Anchored(root, links, y);
      ConnectedSym(links, y, root[y]);
      ConnectedTrans(links, x, root[x], y);
    }
    if Connected(links, x, y) {
      var p :| Joins(links, p, x, y);
      forall e | e in links ensures Agrees(root, e.0, e.1) { assert (e.0, e.1) in links; }
      LabelAlongPath(links, root, p);
    }
  }

  class Forest<T(==,!new)> {
    var parent: map<T, T>
    ghost var root: map<T, T>          // the representative each `find` returns
    ghost var rank: map<T, nat>        // climbs along `parent`
    ghost var height: nat              // no rank exceeds it
    ghost var links: set<(T, T)>       // the links united so far

    ghost predicate Valid()
      reads this
    {
      IsForest(parent, root, rank, height) && Represents(root, links)
    }

    constructor ()
      ensures Valid() && parent == map[] && links == {}
    {
      parent, root, rank, height, links := map[], map[], map[], 0, {};
    }

    // `find`, with the `setdefault` that registers an id it has not met.
    method Find(start: T) returns (x: T)
      requires Valid()
      modifies this
      ensures Valid() && links == old(links)
      ensures parent.Keys == old(parent).Keys + {start}
      ensures root == if start in old(parent) then old(root) else old(root)[start := start]
      ensures x in parent && x == root[start] && parent[x] == x
    {
      if start !in parent {
        RegisterKeepsForest(parent, root, rank, height, start);
        RegisterKeepsLinks(root, links, start);
        parent := parent[start := start];
        root, rank := root[start := start], rank[start := 0];
      }
      ghost var entryRoot, entryRank := root, rank;
      x := start;
      while parent[x] != x
        invariant IsForest(parent, entryRoot, entryRank, height)
        invariant root == entryRoot && rank == entryRank && height == old(height) && links == old(links)
        invariant parent.Keys == old(parent).Keys + {start}
        invariant x in parent && root[x] == root[start]
        decreases height - rank[x]
      {
        HalvingKeepsForest(parent, root, rank, height, x);
        parent := parent[x := parent[parent[x]]];
        x := parent[x];
      }
      assert Node(parent, root, rank, height, x);
    }

    // Hangs one root under another, uniting the classes of `x` and `y`.
    method Attach(a: T, b: T, ghost x: T, ghost y: T)
      requires Valid()
      requires a in parent && b in parent && parent[a] == a && parent[b] == b && a != b
      requires x in parent && y in parent && {root[x], root[y]} == {a, b}
      modifies this
      ensures Valid() && links == old(links) + {(x, y)}
      ensures parent == old(parent)[a := b]
      ensures root == Redirect(old(root), a, b)
    {
      AttachKeepsForest(parent, root, rank, height, a, b);
      AttachKeepsLinks(root, links, a, b, x, y);
      parent := parent[a := b];
      root, rank := Redirect(root, a, b), Lift(rank, a, b);
      height := height + rank[b];
      links := links + {(x, y)};
    }

    // The link was already implied: both ends have one root.
    ghost method Absorb(x: T, y: T)
      requires Valid() && x in parent && y in parent && root[x] == root[y]
      modifies this`links
      ensures Valid() && links == old(links) + {(x, y)}
    {
      AbsorbKeepsLinks(root, links, x, y);
      links := links + {(x, y)};
    }
  }
}
