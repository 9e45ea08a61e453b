// Stable sorting by a comparison, as Python's `sorted` and `list.sort` perform it,
// and the facts about sorted sequences that the harness scripts rely on.
module Sorting {

  // A total preorder: any two values compare, and comparisons chain.
  ghost predicate TotalPreorder<T(!new)>(le: (T, T) -> bool) {
    && (forall x, y :: le(x, y) || le(y, x))
    && (forall x, y, z :: le(x, y) && le(y, z) ==> le(x, z))
  }

  ghost predicate Ordered<T>(s: seq<T>, le: (T, T) -> bool) {
    forall i, j | 0 <= i < j < |s| :: le(s[i], s[j])
  }

  // Ties are impossible between different members of `s`.
  ghost predicate NoTies<T>(s: seq<T>, le: (T, T) -> bool) {
    forall i, j | 0 <= i < |s| && 0 <= j < |s| && le(s[i], s[j]) && le(s[j], s[i]) :: s[i] == s[j]
  }

  // Places `x` behind every leading element that is not greater than it.
  function Insert<T>(x: T, s: seq<T>, le: (T, T) -> bool): (r: seq<T>)
    ensures multiset(r) == multiset(s) + multiset{x}
    ensures |r| == |s| + 1
  {
    if s == [] then [x]
    else if le(s[|s| - 1], x) then s + [x]
    else
      assert s == s[..|s| - 1] + [s[|s| - 1]];
      Insert(x, s[..|s| - 1], le) + [s[|s| - 1]]
  }

  function Sort<T>(s: seq<T>, le: (T, T) -> bool): (r: seq<T>)
    ensures multiset(r) == multiset(s)
    ensures |r| == |s|
  {
    if s == [] then []
    else
      assert s == s[..|s| - 1] + [s[|s| - 1]];
      Insert(s[|s| - 1], Sort(s[..|s| - 1], le), le)
  }

  lemma MemberOfEqualMultisets<T>(a: seq<T>, b: seq<T>, k: nat)
    requires multiset(a) == multiset(b)
    requires k < |a|
    ensures a[k] in b
  {
    assert a[k] in multiset(a);
  }

  lemma {:induction false} InsertOrdered<T(!new)>(x: T, s: seq<T>, le: (T, T) -> bool)
    requires TotalPreorder(le)
    requires Ordered(s, le)
    ensures Ordered(Insert(x, s, le), le)
  {
    if s != [] && !le(s[|s| - 1], x) {
      var front, last := s[..|s| - 1], s[|s| - 1];
      InsertOrdered(x, front, le);
      var r := Insert(x, front, le);
      forall i | 0 <= i < |r|
        ensures le(r[i], last)
      {
        assert r[i] in multiset(r);
        assert r[i] == x || r[i] in front;
      }
    }
  }

  lemma {:induction false} SortOrdered<T(!new)>(s: seq<T>, le: (T, T) -> bool)
    requires TotalPreorder(le)
    ensures Ordered(Sort(s, le), le)
  {
    if s != [] {
      SortOrdered(s[..|s| - 1], le);
      InsertOrdered(s[|s| - 1], Sort(s[..|s| - 1], le), le);
    }
  }

  // Two ordered arrangements of the same values coincide when ties are impossible.
  lemma {:induction false} OrderedUnique<T>(a: seq<T>, b: seq<T>, le: (T, T) -> bool)
    requires multiset(a) == multiset(b)
    requires Ordered(a, le) && Ordered(b, le) && NoTies(a, le)
    ensures a == b
  {
    SameSize(a, b);
    if a != [] {
      HeadsAgree(a, b, le);
      TailsAgree(a, b);
      TailOrdered(a, le);
      TailOrdered(b, le);
      OrderedUnique(a[1..], b[1..], le);
      assert a == [a[0]] + a[1..] && b == [b[0]] + b[1..];
    }
  }

  lemma SameSize<T>(a: seq<T>, b: seq<T>)
    requires multiset(a) == multiset(b)
    ensures |a| == |b|
  {
    assert |a| == |multiset(a)| == |multiset(b)| == |b|;
  }

  lemma TailsAgree<T>(a: seq<T>, b: seq<T>)
    requires multiset(a) == multiset(b) && a != [] && b != [] && a[0] == b[0]
    ensures multiset(a[1..]) == multiset(b[1..])
  {
    assert a == [a[0]] + a[1..];
    assert b == [b[0]] + b[1..];
    SamePlaces(a[1..], b[1..], multiset(a), a[0]);
  }

  lemma TailOrdered<T>(s: seq<T>, le: (T, T) -> bool)
    requires s != [] && Ordered(s, le)
    ensures Ordered(s[1..], le) && (NoTies(s, le) ==> NoTies(s[1..], le))
  {
  }

  lemma HeadsAgree<T>(a: seq<T>, b: seq<T>, le: (T, T) -> bool)
    requires multiset(a) == multiset(b) && a != [] && b != []
    requires Ordered(a, le) && Ordered(b, le) && NoTies(a, le)
    ensures a[0] == b[0]
  {
    MemberOfEqualMultisets(a, b, 0);
    MemberOfEqualMultisets(b, a, 0);
    var i :| 0 <= i < |a| && a[i] == b[0];
    var j :| 0 <= j < |b| && b[j] == a[0];
  }

  // Sorting forgets the input order: equal contents without ties sort alike.
  lemma SortUnique<T(!new)>(a: seq<T>, b: seq<T>, le: (T, T) -> bool)
    requires TotalPreorder(le)
    requires multiset(a) == multiset(b)
    requires NoTies(a, le)
    ensures Sort(a, le) == Sort(b, le)
  {
    SortOrdered(a, le);
    SortOrdered(b, le);
    var sa := Sort(a, le);
    forall i, j | 0 <= i < |sa| && 0 <= j < |sa| && le(sa[i], sa[j]) && le(sa[j], sa[i])
      ensures sa[i] == sa[j]
    {
      MemberOfEqualMultisets(sa, a, i);
      MemberOfEqualMultisets(sa, a, j);
    }
    OrderedUnique(sa, Sort(b, le), le);
  }

  // The values that meet a condition, in order.
  ghost function Keep<T>(s: seq<T>, p: T -> bool): seq<T> {
    if s == [] then [] else Keep(s[..|s| - 1], p) + if p(s[|s| - 1]) then [s[|s| - 1]] else []
  }

  lemma KeepAppend<T>(s: seq<T>, x: T, p: T -> bool)
    ensures Keep(s + [x], p) == Keep(s, p) + if p(x) then [x] else []
  {
    assert (s + [x])[..|s|] == s;
  }

  lemma {:induction false} InsertStable<T>(x: T, s: seq<T>, le: (T, T) -> bool, p: T -> bool)
    requires forall y | p(x) && p(y) :: le(y, x)
    ensures Keep(Insert(x, s, le), p) == Keep(s, p) + if p(x) then [x] else []
  {
    if s == [] {
      KeepAppend([], x, p);
      assert Insert(x, s, le) == [] + [x];
    } else if le(s[|s| - 1], x) {
      KeepAppend(s, x, p);
    } else {
      var front, last := s[..|s| - 1], s[|s| - 1];
      InsertStable(x, front, le, p);
      KeepAppend(Insert(x, front, le), last, p);
    }
  }

  // Sorting keeps the order of values that the comparison does not tell apart.
  lemma {:induction false} SortStable<T(!new)>(s: seq<T>, le: (T, T) -> bool, p: T -> bool)
    requires forall x, y | p(x) && p(y) :: le(y, x)
    ensures Keep(Sort(s, le), p) == Keep(s, p)
  {
    if s != [] {
      SortStable(s[..|s| - 1], le, p);
      InsertStable(s[|s| - 1], Sort(s[..|s| - 1], le), le, p);
    }
  }

  // A sequence that is already in order is left alone.
  lemma {:induction false} SortFixed<T(!new)>(s: seq<T>, le: (T, T) -> bool)
    requires Ordered(s, le)
    ensures Sort(s, le) == s
  {
    if s != [] {
      SortFixed(s[..|s| - 1], le);
    }
  }

  lemma CountAppended<T>(front: seq<T>, last: T, x: T)
    ensures multiset(front + [last])[x] == multiset(front)[x] + if x == last then 1 else 0
  {
  }

  lemma LastCounts<T>(s: seq<T>)
    requires s != []
    ensures multiset(s) == multiset(s[..|s| - 1]) + multiset([s[|s| - 1]])
  {
    assert s == s[..|s| - 1] + [s[|s| - 1]];
  }

  function Without<T>(s: seq<T>, k: nat): (r: seq<T>)
    requires k < |s|
    ensures |r| == |s| - 1
  {
    s[..k] + s[k + 1..]
  }

  lemma WithoutCounts<T>(s: seq<T>, k: nat)
    requires k < |s|
    ensures multiset(s) == multiset(Without(s, k)) + multiset{s[k]}
  {
    assert s == s[..k] + [s[k]] + s[k + 1..];
  }

  lemma WithoutAgree<T>(a: seq<T>, b: seq<T>, i: nat, k: nat)
    requires multiset(a) == multiset(b) && i < |a| && k < |b| && a[i] == b[k]
    ensures multiset(Without(a, i)) == multiset(Without(b, k))
  {
    hide Without;
    WithoutCounts(a, i);
    WithoutCounts(b, k);
    SamePlaces(Without(a, i), Without(b, k), multiset(a), a[i]);
  }

  // The place in a rearrangement that holds the last value.
  lemma LastPlace<T>(a: seq<T>, b: seq<T>) returns (k: nat)
    requires multiset(a) == multiset(b) && a != []
    ensures k < |b| && b[k] == a[|a| - 1]
    ensures multiset(a[..|a| - 1]) == multiset(Without(b, k))
  {
    var n := |a| - 1;
    MemberOfEqualMultisets(a, b, n);
    k :| 0 <= k < |b| && b[k] == a[n];
    assert Without(a, n) == a[..n];
    WithoutAgree(a, b, n, k);
  }

  // A relation between the members of every two places survives rearrangement.
  lemma PairsSurvive<T>(a: seq<T>, b: seq<T>, related: (T, T) -> bool, k: nat, l: nat)
    requires multiset(a) == multiset(b)
    requires forall i, j | 0 <= i < |a| && 0 <= j < |a| && i != j :: related(a[i], a[j])
    requires k < |b| && l < |b| && k != l
    ensures related(b[k], b[l])
  {
    MemberOfEqualMultisets(b, a, k);
    var i :| 0 <= i < |a| && a[i] == b[k];
    var l' := if l < k then l else l - 1;
    assert Without(b, k)[l'] == b[l];
    WithoutAgree(a, b, i, k);
    MemberOfEqualMultisets(Without(b, k), Without(a, i), l');
    var j' :| 0 <= j' < |a| - 1 && Without(a, i)[j'] == b[l];
    var j := if j' < i then j' else j' + 1;
    assert a[j] == b[l];
  }

  lemma SamePlaces<T>(a: seq<T>, b: seq<T>, all: multiset<T>, x: T)
    requires all == multiset(a) + multiset{x} && all == multiset(b) + multiset{x}
    ensures multiset(a) == multiset(b)
  {
    assert multiset(a) == all - multiset{x};
    assert multiset(b) == all - multiset{x};
  }

  function Flatten<T>(parts: seq<seq<T>>): seq<T> {
    if parts == [] then [] else Flatten(parts[..|parts| - 1]) + parts[|parts| - 1]
  }

  lemma FlattenNone<T>()
    ensures Flatten<T>([]) == []
  {
  }

  lemma FlattenLast<T>(parts: seq<seq<T>>)
    requires parts != []
    ensures Flatten(parts) == Flatten(parts[..|parts| - 1]) + parts[|parts| - 1]
  {
  }

  lemma Associate<T>(a: seq<T>, b: seq<T>, c: seq<T>)
    ensures a + (b + c) == a + b + c
  {
  }

  lemma {:induction false} FlattenConcat<T>(a: seq<seq<T>>, b: seq<seq<T>>)
    ensures Flatten(a + b) == Flatten(a) + Flatten(b)
  {
    hide Flatten;
    if b == [] {
      FlattenNone<T>();
      assert a + b == a;
    } else {
      var n := |b| - 1;
      FlattenConcat(a, b[..n]);
      FlattenLast(b);
      FlattenLast(a + b);
      assert (a + b)[..|a| + n] == a + b[..n];
      Associate(Flatten(a), Flatten(b[..n]), b[n]);
    }
  }

  lemma {:induction false} FlattenEmpties<T>(parts: seq<seq<T>>)
    requires forall k | 0 <= k < |parts| :: parts[k] == []
    ensures Flatten(parts) == []
  {
    if parts != [] { FlattenEmpties(parts[..|parts| - 1]); }
  }

  lemma {:induction false} FlattenMember<T>(parts: seq<seq<T>>, x: T)
    ensures x in Flatten(parts) <==> exists k :: 0 <= k < |parts| && x in parts[k]
  {
    if parts != [] {
      var n := |parts| - 1;
      FlattenMember(parts[..n], x);
      if k :| 0 <= k < |parts| && x in parts[k] {
        assert k < n ==> x in parts[..n][k];
      }
    }
  }

  lemma {:induction false} FlattenExtend<T>(parts: seq<seq<T>>, k: nat, more: seq<T>)
    requires k < |parts|
    ensures multiset(Flatten(parts[k := parts[k] + more])) == multiset(Flatten(parts)) + multiset(more)
  {
    var n := |parts| - 1;
    var after := parts[k := parts[k] + more];
    if k < n {
      FlattenExtend(parts[..n], k, more);
      assert after[..n] == parts[..n][k := parts[k] + more];
    } else {
      assert after[..n] == parts[..n];
    }
  }

  lemma {:induction false} FlattenPermute<T>(a: seq<seq<T>>, b: seq<seq<T>>)
    requires multiset(a) == multiset(b)
    ensures multiset(Flatten(a)) == multiset(Flatten(b))
    decreases |a|
  {
    if a == [] {
      SameSize(a, b);
    } else {
      var n := |a| - 1;
      var k := LastPlace(a, b);
      FlattenPermute(a[..n], Without(b, k));
      FlattenRemove(b, k);
    }
  }

  lemma FlattenOne<T>(part: seq<T>)
    ensures Flatten([part]) == part
  {
    assert [part][..0] == [];
  }

  lemma FlattenAround<T>(before: seq<seq<T>>, part: seq<T>, behind: seq<seq<T>>)
    ensures multiset(Flatten(before + [part] + behind)) == multiset(Flatten(before + behind)) + multiset(part)
  {
    hide Flatten;
    FlattenConcat(before + [part], behind);
    FlattenConcat(before, [part]);
    FlattenOne(part);
    FlattenConcat(before, behind);
    Interchange(Flatten(before), part, Flatten(behind));
  }

  lemma AroundPlace<T>(s: seq<T>, k: nat)
    requires k < |s|
    ensures s == s[..k] + [s[k]] + s[k + 1..] && Without(s, k) == s[..k] + s[k + 1..]
  {
  }

  lemma FlattenRemove<T>(parts: seq<seq<T>>, k: nat)
    requires k < |parts|
    ensures multiset(Flatten(parts)) == multiset(Flatten(Without(parts, k))) + multiset(parts[k])
  {
    hide Flatten, Without;
    AroundPlace(parts, k);
    FlattenAround(parts[..k], parts[k], parts[k + 1..]);
  }

  lemma Interchange<T>(a: seq<T>, b: seq<T>, c: seq<T>)
    ensures multiset(a + b + c) == multiset(a + c) + multiset(b)
  {
  }

  ghost function Map<T, U>(f: T -> U, s: seq<T>): (r: seq<U>)
    ensures |r| == |s|
    ensures forall k | 0 <= k < |s| :: r[k] == f(s[k])
  {
    seq(|s|, k requires 0 <= k < |s| => f(s[k]))
  }

  lemma MapStep<T, U>(f: T -> U, s: seq<T>, k: nat)
    requires k < |s|
    ensures Map(f, s[..k + 1]) == Map(f, s[..k]) + [f(s[k])]
  {
  }

  lemma MapSplit<T, U>(f: T -> U, a: seq<T>, b: seq<T>, k: nat)
    requires a != [] && k < |b| && b[k] == a[|a| - 1]
    requires multiset(Map(f, a[..|a| - 1])) == multiset(Map(f, Without(b, k)))
    ensures multiset(Map(f, a)) == multiset(Map(f, b))
  {
    var n := |a| - 1;
    WithoutCounts(Map(f, a), n);
    WithoutCounts(Map(f, b), k);
    assert Without(Map(f, a), n) == Map(f, a[..n]);
    assert Without(Map(f, b), k) == Map(f, Without(b, k));
  }

  lemma {:induction false} MapPermute<T, U>(f: T -> U, a: seq<T>, b: seq<T>)
    requires multiset(a) == multiset(b)
    ensures multiset(Map(f, a)) == multiset(Map(f, b))
    decreases |a|
  {
    SameSize(a, b);
    if a != [] {
      var n := |a| - 1;
      var k := LastPlace(a, b);
      MapPermute(f, a[..n], Without(b, k));
      MapSplit(f, a, b, k);
    }
  }

  function CountIf<T>(s: seq<T>, p: T -> bool): nat {
    if s == [] then 0 else CountIf(s[..|s| - 1], p) + if p(s[|s| - 1]) then 1 else 0
  }

  lemma {:induction false} CountIfConcat<T>(a: seq<T>, b: seq<T>, p: T -> bool)
    ensures CountIf(a + b, p) == CountIf(a, p) + CountIf(b, p)
  {
    if b == [] {
      assert a + b == a;
    } else {
      var n := |b| - 1;
      CountIfConcat(a, b[..n], p);
      assert (a + b)[..|a| + n] == a + b[..n];
    }
  }

  // The number of places whose value meets the condition.
  lemma {:induction false} CountIfIsNumber<T>(s: seq<T>, p: T -> bool)
    ensures CountIf(s, p) == |set k | 0 <= k < |s| && p(s[k])|
  {
    if s != [] {
      var n := |s| - 1;
      CountIfIsNumber(s[..n], p);
      var front, all := set k | 0 <= k < n && p(s[..n][k]), set k | 0 <= k < |s| && p(s[k]);
      assert front == set k | 0 <= k < n && p(s[k]);
      if p(s[n]) {
        assert all == front + {n};
      } else {
        assert all == front;
      }
    }
  }

  lemma {:induction false} CountIfWithout<T>(s: seq<T>, p: T -> bool, k: nat)
    requires k < |s|
    ensures CountIf(s, p) == CountIf(Without(s, k), p) + if p(s[k]) then 1 else 0
  {
    var n := |s| - 1;
    if k < n {
      CountIfWithout(s[..n], p, k);
      assert Without(s, k)[..n - 1] == Without(s[..n], k);
    } else {
      assert Without(s, k) == s[..n];
    }
  }

  lemma {:induction false} CountIfPermute<T>(a: seq<T>, b: seq<T>, p: T -> bool)
    requires multiset(a) == multiset(b)
    ensures CountIf(a, p) == CountIf(b, p)
    decreases |a|
  {
    SameSize(a, b);
    if a != [] {
      var n := |a| - 1;
      var k := LastPlace(a, b);
      CountIfPermute(a[..n], Without(b, k), p);
      CountIfWithout(b, p, k);
    }
  }

  // `chosen` holds the values of `s` that are wanted, in order, from these places.
  ghost predicate Selects<T>(s: seq<T>, chosen: seq<T>, wanted: T -> bool, places: seq<nat>) {
    && |places| == |chosen|
    && (forall i, j | 0 <= i < j < |places| :: places[i] < places[j])
    && (forall i | 0 <= i < |places| :: places[i] < |s| && chosen[i] == s[places[i]])
    && (forall k: nat | k < |s| :: k in places <==> wanted(s[k]))
  }

  lemma SelectsNext<T>(s: seq<T>, chosen: seq<T>, wanted: T -> bool, places: seq<nat>, x: T)
    requires Selects(s, chosen, wanted, places)
    ensures wanted(x) ==> Selects(s + [x], chosen + [x], wanted, places + [|s|])
    ensures !wanted(x) ==> Selects(s + [x], chosen, wanted, places)
  {
    forall k: nat | k < |s| ensures (s + [x])[k] == s[k] && (k in places + [|s|] <==> k in places) {
    }
    assert |s| !in places;
  }

  // At most the first n values.
  function Take<T>(s: seq<T>, n: nat): seq<T> { if n < |s| then s[..n] else s }

  // What the head of a sorted sequence leaves out does not come before anything in it.
  lemma HeadIsTop<T(!new)>(s: seq<T>, le: (T, T) -> bool, n: nat, x: T)
    requires TotalPreorder(le) && x in s
    ensures var head := Take(Sort(s, le), n);
      x in head || (|head| == n && forall y | y in head :: le(y, x))
  {
    SortOrdered(s, le);
    var sorted := Sort(s, le);
    assert x in multiset(s);
    assert x in multiset(sorted);
    var k :| 0 <= k < |sorted| && sorted[k] == x;
    if k < n {
      assert Take(sorted, n)[k] == x;
    } else {
      forall y | y in Take(sorted, n) ensures le(y, x) {
        var j :| 0 <= j < n && sorted[j] == y;
      }
    }
  }

  lemma {:induction false} CountAll<T>(s: seq<T>, p: T -> bool)
    requires forall x | x in s :: p(x)
    ensures CountIf(s, p) == |s|
  {
    if s != [] {
      assert s[|s| - 1] in s;
      CountAll(s[..|s| - 1], p);
    }
  }

  // What holds of a whole head holds of as many values.
  lemma HeadCounts<T>(s: seq<T>, sorted: seq<T>, n: nat, p: T -> bool)
    requires multiset(sorted) == multiset(s) && n <= |sorted| && forall x | x in sorted[..n] :: p(x)
    ensures CountIf(s, p) >= n && |s| >= n
  {
    hide CountIf;
    var head, rest := sorted[..n], sorted[n..];
    SameSize(sorted, s);
    CountIfPermute(sorted, s, p);
    CountIfConcat(head, rest, p);
    CountAll(head, p);
    assert sorted == head + rest;
  }

  // The first occurrences of a sequence, in order.
  function Distinct<T(==,!new)>(s: seq<T>): (r: seq<T>)
    ensures forall x :: x in r <==> x in s
    ensures forall i, j | 0 <= i < j < |r| :: r[i] != r[j]
  {
    if s == [] then []
    else
      var front := Distinct(s[..|s| - 1]);
      assert s == s[..|s| - 1] + [s[|s| - 1]];
      if s[|s| - 1] in front then front else front + [s[|s| - 1]]
  }

  lemma {:induction false} DistinctPrefix<T(!new)>(s: seq<T>, n: nat)
    requires n <= |s|
    ensures Distinct(s[..n]) <= Distinct(s)
  {
    if n < |s| {
      DistinctPrefix(s[..|s| - 1], n);
      assert s[..|s| - 1][..n] == s[..n];
    } else {
      assert s[..n] == s;
    }
  }

  lemma {:induction false} DistinctCount<T(!new)>(s: seq<T>)
    ensures |Distinct(s)| == |set x | x in s|
  {
    if s != [] {
      var n := |s| - 1;
      DistinctCount(s[..n]);
      assert s == s[..n] + [s[n]];
      assert (set x | x in s) == (set x | x in s[..n]) + {s[n]};
      if s[n] in s[..n] {
        assert (set x | x in s) == (set x | x in s[..n]);
      } else {
        assert s[n] !in (set x | x in s[..n]);
      }
    }
  }

  // A value stands where the number of different values before its first occurrence puts it.
  lemma DistinctPlace<T(!new)>(s: seq<T>, k: nat)
    requires k < |s| && s[k] !in s[..k]
    ensures var n := |set x | x in s[..k]|; n < |Distinct(s)| && Distinct(s)[n] == s[k]
  {
    DistinctCount(s[..k]);
    DistinctPrefix(s, k + 1);
    assert s[..k + 1][..k] == s[..k];
    assert Distinct(s[..k + 1]) == Distinct(s[..k]) + [s[k]];
  }

  lemma {:induction false} FirstOccurrence<T(!new)>(s: seq<T>, x: T) returns (k: nat)
    requires x in s
    ensures k < |s| && s[k] == x && x !in s[..k]
  {
    var n := |s| - 1;
    if x in s[..n] {
      k := FirstOccurrence(s[..n], x);
      assert s[..n][..k] == s[..k];
    } else {
      assert s == s[..n] + [s[n]];
      k := n;
    }
  }

  lemma {:induction false} CountOfDistinct<T>(s: seq<T>, x: T)
    requires forall i, j | 0 <= i < j < |s| :: s[i] != s[j]
    ensures multiset(s)[x] == if x in s then 1 else 0
  {
    if s != [] {
      var front, last := s[..|s| - 1], s[|s| - 1];
      assert s == front + [last];
      CountOfDistinct(front, x);
      if x == last {
        assert x !in front;
      }
    }
  }

  lemma DistinctSameMembers<T>(a: seq<T>, b: seq<T>)
    requires forall i, j | 0 <= i < j < |a| :: a[i] != a[j]
    requires forall i, j | 0 <= i < j < |b| :: b[i] != b[j]
    requires forall x :: x in a <==> x in b
    ensures multiset(a) == multiset(b)
  {
    forall x ensures multiset(a)[x] == multiset(b)[x] {
      CountOfDistinct(a, x);
      CountOfDistinct(b, x);
    }
  }

  ghost predicate NoRepeats<T>(s: seq<T>) {
    forall i, j | 0 <= i < j < |s| :: s[i] != s[j]
  }

  lemma RearrangedNoRepeats<T(!new)>(a: seq<T>, b: seq<T>)
    requires multiset(a) == multiset(b) && NoRepeats(a)
    ensures NoRepeats(b)
  {
    forall k, l | 0 <= k < l < |b| ensures b[k] != b[l] {
      PairsSurvive(a, b, (x, y) => x != y, k, l);
    }
  }

  lemma {:induction false} DistinctLength<T(!new)>(s: seq<T>)
    ensures |Distinct(s)| <= |s|
    ensures |Distinct(s)| == |s| ==> Distinct(s) == s
  {
    if s != [] {
      var n := |s| - 1;
      DistinctLength(s[..n]);
      assert s == s[..n] + [s[n]];
    }
  }
}
