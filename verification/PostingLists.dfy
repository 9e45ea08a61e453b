// Posting lists of an inverted index, and a scan of them under a work cap.
module PostingLists {
  import opened Sorting

  // ----- postings

  type Postings<!G> = map<G, seq<nat>>

  function PostingOf<G(==,!new)>(postings: Postings<G>, gram: G): seq<nat> {
    if gram in postings then postings[gram] else []
  }

  // The surfaces below `n` that have `gram`, in ascending order.
  function Holders<G(==,!new)>(surfaceGrams: seq<seq<G>>, gram: G, n: nat): seq<nat>
    requires n <= |surfaceGrams|
  {
    if n == 0 then []
    else Holders(surfaceGrams, gram, n - 1) + if gram in surfaceGrams[n - 1] then [n - 1] else []
  }

  ghost predicate ArePostings<G(!new)>(postings: Postings<G>, surfaceGrams: seq<seq<G>>) {
    forall gram {:trigger PostingOf(postings, gram)} ::
      PostingOf(postings, gram) == Holders(surfaceGrams, gram, |surfaceGrams|)
  }

  lemma HoldersNext<G(!new)>(surfaceGrams: seq<seq<G>>, gram: G, n: nat)
    requires n < |surfaceGrams|
    ensures Holders(surfaceGrams, gram, n + 1)
         == if gram in surfaceGrams[n] then Holders(surfaceGrams, gram, n) + [n] else Holders(surfaceGrams, gram, n)
  {
  }

  lemma HoldersNone<G(!new)>(surfaceGrams: seq<seq<G>>, gram: G, id: nat)
    ensures multiset(Holders(surfaceGrams, gram, 0))[id] == 0
  {
  }

  lemma {:induction false} HoldersCount<G(!new)>(surfaceGrams: seq<seq<G>>, gram: G, n: nat, id: nat)
    requires n <= |surfaceGrams|
    ensures multiset(Holders(surfaceGrams, gram, n))[id] == if id < n && gram in surfaceGrams[id] then 1 else 0
  {
    hide Holders;
    if n == 0 {
      HoldersNone(surfaceGrams, gram, id);
    } else {
      HoldersCount(surfaceGrams, gram, n - 1, id);
      HoldersNext(surfaceGrams, gram, n - 1);
      CountAppended(Holders(surfaceGrams, gram, n - 1), n - 1, id);
    }
  }

  lemma {:induction false} HoldersExtend<G(!new)>(surfaceGrams: seq<seq<G>>, more: seq<G>, gram: G, n: nat)
    requires n <= |surfaceGrams|
    ensures Holders(surfaceGrams + [more], gram, n) == Holders(surfaceGrams, gram, n)
  {
    if n > 0 { HoldersExtend(surfaceGrams, more, gram, n - 1); }
  }

  // ----- the posting entries a query reads, in order

  function Stream<G(==,!new)>(postings: Postings<G>, order: seq<G>): seq<nat> {
    if order == [] then [] else Stream(postings, order[..|order| - 1]) + PostingOf(postings, order[|order| - 1])
  }

  function Shared<G(==,!new)>(query: seq<G>, surface: seq<G>): set<G> {
    set gram | gram in query && gram in surface
  }

  // How many grams of the query the surface has.
  function Common<G(==,!new)>(query: seq<G>, surfaceGrams: seq<seq<G>>, id: nat): nat {
    if id < |surfaceGrams| then |Shared(query, surfaceGrams[id])| else 0
  }

  lemma SharedStep<G(!new)>(front: seq<G>, last: G, surface: seq<G>)
    requires last !in front
    ensures |Shared(front + [last], surface)| == |Shared(front, surface)| + if last in surface then 1 else 0
  {
    var more := if last in surface then {last} else {};
    assert Shared(front + [last], surface) == Shared(front, surface) + more;
    assert Shared(front, surface) !! more;
  }

  lemma PostingCounts<G(!new)>(postings: Postings<G>, surfaceGrams: seq<seq<G>>, gram: G, id: nat)
    requires ArePostings(postings, surfaceGrams)
    ensures multiset(PostingOf(postings, gram))[id] == if id < |surfaceGrams| && gram in surfaceGrams[id] then 1 else 0
  {
    assert PostingOf(postings, gram) == Holders(surfaceGrams, gram, |surfaceGrams|);
    HoldersCount(surfaceGrams, gram, |surfaceGrams|, id);
  }

  // A surface occurs in the stream once for every gram it shares with the query.
  lemma {:induction false} StreamCounts<G(!new)>(postings: Postings<G>, surfaceGrams: seq<seq<G>>, order: seq<G>,
                                          id: nat)
    requires ArePostings(postings, surfaceGrams) && NoRepeats(order)
    ensures multiset(Stream(postings, order))[id] == Common(order, surfaceGrams, id)
  {
    if order == [] {
      assert id < |surfaceGrams| ==> Shared(order, surfaceGrams[id]) == {};
    } else {
      var front, last := order[..|order| - 1], order[|order| - 1];
      StreamCounts(postings, surfaceGrams, front, id);
      assert order == front + [last];
      PostingCounts(postings, surfaceGrams, last, id);
      if id < |surfaceGrams| {
        SharedStep(front, last, surfaceGrams[id]);
      }
    }
  }

  lemma {:induction false} StreamPrefix<G(!new)>(postings: Postings<G>, order: seq<G>, n: nat)
    requires n <= |order|
    ensures |Stream(postings, order[..n])| <= |Stream(postings, order)|
    ensures Stream(postings, order)[..|Stream(postings, order[..n])|] == Stream(postings, order[..n])
    decreases |order|
  {
    if n < |order| {
      var front := order[..|order| - 1];
      StreamPrefix(postings, front, n);
      assert front[..n] == order[..n];
    } else {
      assert order[..n] == order;
    }
  }

  // ----- the capped scan

  ghost predicate ByLength<G(!new)>(postings: Postings<G>, order: seq<G>) {
    forall i, j | 0 <= i < j < |order| :: |PostingOf(postings, order[i])| <= |PostingOf(postings, order[j])|
  }

  function Within(cap: int, total: nat): nat {
    if cap <= 0 then 0 else if cap < total then cap else total
  }

  lemma StreamNext<G(!new)>(postings: Postings<G>, order: seq<G>, n: nat)
    requires n < |order|
    ensures Stream(postings, order[..n + 1]) == Stream(postings, order[..n]) + PostingOf(postings, order[n])
  {
    assert order[..n + 1][..n] == order[..n];
  }

  // Once something was read, no later posting is empty.
  lemma {:induction false} LaterNotEmpty<G(!new)>(postings: Postings<G>, order: seq<G>, n: nat)
    requires ByLength(postings, order) && n < |order|
    requires |Stream(postings, order[..n])| > 0
    ensures |PostingOf(postings, order[n])| > 0
    decreases n
  {
    var m := n - 1;
    StreamNext(postings, order, m);
    assert |PostingOf(postings, order[m])| <= |PostingOf(postings, order[n])|;
    if |PostingOf(postings, order[m])| == 0 {
      LaterNotEmpty(postings, order, m);
    }
  }

  // The scan has read the first n postings whole.
  ghost predicate HasRead<G(!new)>(postings: Postings<G>, order: seq<G>, n: nat, overlap: multiset<nat>, read: nat) {
    && n <= |order|
    && read == |Stream(postings, order[..n])| <= |Stream(postings, order)|
    && overlap == multiset(Stream(postings, order)[..read])
  }

  // The scan has read this much of the stream.
  ghost predicate HasReadTo<G(!new)>(postings: Postings<G>, order: seq<G>, overlap: multiset<nat>, read: nat) {
    read <= |Stream(postings, order)| && overlap == multiset(Stream(postings, order)[..read])
  }

  // The scan reads the first `cap` entries of the stream and stops there.
  method Scan<G(==,!new)>(postings: Postings<G>, order: seq<G>, cap: int)
    returns (overlap: multiset<nat>, postingsRead: nat, postingLookups: nat, saturated: bool)
    requires ByLength(postings, order)
    ensures postingsRead == Within(cap, |Stream(postings, order)|)
    ensures HasReadTo(postings, order, overlap, postingsRead)
    ensures saturated <==> order != [] && (cap <= 0 || |Stream(postings, order)| > cap)
    ensures postingLookups <= |order| && (postingLookups < |order| ==> saturated)
    ensures saturated ==> postingLookups > 0 && |Stream(postings, order[..postingLookups - 1])| <= postingsRead
    ensures saturated && cap > 0 ==> |Stream(postings, order[..postingLookups])| > cap
  {
    hide Stream, HasRead, HasReadTo, ByLength;
    overlap, postingsRead, postingLookups, saturated := multiset{}, 0, 0, false;
    ReadNothing(postings, order);
    for n := 0 to |order|
      invariant !saturated && postingLookups == n
      invariant HasRead(postings, order, n, overlap, postingsRead)
      invariant n > 0 ==> 0 < cap && postingsRead <= cap
    {
      var values := PostingOf(postings, order[n]);
      postingLookups := postingLookups + 1;
      var remaining := cap - postingsRead;
      ReadSize(postings, order, n, overlap, postingsRead);
      if remaining <= 0 {
        saturated := true;
        return;
      }
      var selected := if |values| <= remaining then values else values[..remaining];
      ReadMore(postings, order, n, overlap, postingsRead, selected);
      overlap := overlap + multiset(selected);
      postingsRead := postingsRead + |selected|;
      if |selected| < |values| {
        saturated := true;
        return;
      }
    }
    ReadAll(postings, order, overlap, postingsRead);
  }

  lemma ReadNothing<G(!new)>(postings: Postings<G>, order: seq<G>)
    ensures HasRead(postings, order, 0, multiset{}, 0)
  {
  }

  lemma ReadAll<G(!new)>(postings: Postings<G>, order: seq<G>, overlap: multiset<nat>, read: nat)
    requires HasRead(postings, order, |order|, overlap, read)
    ensures HasReadTo(postings, order, overlap, read) && read == |Stream(postings, order)|
  {
    assert order[..|order|] == order;
  }

  // How far the stream goes from here, and that no later posting is empty once something was read.
  lemma ReadSize<G(!new)>(postings: Postings<G>, order: seq<G>, n: nat, overlap: multiset<nat>, read: nat)
    requires n < |order| && ByLength(postings, order) && HasRead(postings, order, n, overlap, read)
    ensures HasReadTo(postings, order, overlap, read)
    ensures read == |Stream(postings, order[..n])|
    ensures |Stream(postings, order[..n + 1])| == read + |PostingOf(postings, order[n])| <= |Stream(postings, order)|
    ensures read > 0 ==> |PostingOf(postings, order[n])| > 0
  {
    StreamNext(postings, order, n);
    StreamPrefix(postings, order, n + 1);
    if read > 0 {
      LaterNotEmpty(postings, order, n);
    }
  }

  lemma ReadMore<G(!new)>(postings: Postings<G>, order: seq<G>, n: nat, overlap: multiset<nat>, read: nat,
                   selected: seq<nat>)
    requires n < |order| && HasRead(postings, order, n, overlap, read) && selected <= PostingOf(postings, order[n])
    ensures HasReadTo(postings, order, overlap + multiset(selected), read + |selected|)
    ensures |selected| == |PostingOf(postings, order[n])| ==>
      HasRead(postings, order, n + 1, overlap + multiset(selected), read + |selected|)
  {
    hide Stream, PostingOf;
    var values := PostingOf(postings, order[n]);
    StreamNext(postings, order, n);
    StreamPrefix(postings, order, n);
    StreamPrefix(postings, order, n + 1);
    TakeMore(Stream(postings, order), Stream(postings, order[..n]), values, selected);
  }

  lemma TakeMore(stream: seq<nat>, before: seq<nat>, values: seq<nat>, selected: seq<nat>)
    requires |before| + |values| <= |stream| && stream[..|before|] == before
    requires stream[..|before| + |values|] == before + values && selected <= values
    ensures multiset(stream[..|before| + |selected|]) == multiset(stream[..|before|]) + multiset(selected)
  {
    assert stream[..|before| + |selected|] == stream[..|before| + |values|][..|before| + |selected|];
    assert stream[..|before| + |selected|] == before + selected;
  }

  lemma PrefixBelow<T>(s: seq<T>, n: nat, x: T)
    requires n <= |s|
    ensures multiset(s[..n])[x] <= multiset(s)[x]
  {
    assert s == s[..n] + s[n..];
  }

  // What the scan counted of one surface: what it shares with the query, or less.
  lemma ScanCounts<G(!new)>(postings: Postings<G>, surfaceGrams: seq<seq<G>>, query: seq<G>, order: seq<G>,
                     read: nat, id: nat)
    requires ArePostings(postings, surfaceGrams) && NoRepeats(query) && multiset(order) == multiset(query)
    requires read <= |Stream(postings, order)|
    ensures var counted := multiset(Stream(postings, order)[..read])[id];
      && counted <= Common(query, surfaceGrams, id)
      && (read == |Stream(postings, order)| ==> counted == Common(query, surfaceGrams, id))
  {
    RearrangedNoRepeats(query, order);
    StreamCounts(postings, surfaceGrams, order, id);
    if id < |surfaceGrams| {
      SameShared(query, order, surfaceGrams[id]);
    }
    PrefixBelow(Stream(postings, order), read, id);
    assert read == |Stream(postings, order)| ==> Stream(postings, order)[..read] == Stream(postings, order);
  }

  lemma SameShared<G(!new)>(query: seq<G>, order: seq<G>, surface: seq<G>)
    requires multiset(order) == multiset(query)
    ensures Shared(query, surface) == Shared(order, surface)
  {
    forall gram ensures gram in query <==> gram in order {
      assert gram in query <==> gram in multiset(query);
      assert gram in order <==> gram in multiset(order);
    }
  }

  function Added<G(==,!new)>(gram: G, grams: seq<G>, id: nat): seq<nat> { if gram in grams then [id] else [] }

  // Appends the next surface id to the posting of each of its grams.
  method AddPostings<G(==,!new)>(before: Postings<G>, surfaceGrams: seq<seq<G>>, grams: seq<G>)
    returns (postings: Postings<G>)
    requires ArePostings(before, surfaceGrams) && NoRepeats(grams)
    ensures ArePostings(postings, surfaceGrams + [grams])
  {
    var id := |surfaceGrams|;
    postings := before;
    for k := 0 to |grams|
      invariant forall gram {:trigger PostingOf(postings, gram)} ::
        PostingOf(postings, gram) == PostingOf(before, gram) + Added(gram, grams[..k], id)
    {
      assert grams[k] !in grams[..k];
      postings := AddPosting(before, postings, grams, k, id);
    }
    assert grams[..|grams|] == grams;
    PostingsExtend(before, postings, surfaceGrams, grams);
  }

  method AddPosting<G(==,!new)>(ghost before: Postings<G>, current: Postings<G>, grams: seq<G>, k: nat, id: nat)
    returns (postings: Postings<G>)
    requires NoRepeats(grams) && k < |grams|
    requires forall gram {:trigger PostingOf(current, gram)} ::
      PostingOf(current, gram) == PostingOf(before, gram) + Added(gram, grams[..k], id)
    ensures forall gram {:trigger PostingOf(postings, gram)} ::
      PostingOf(postings, gram) == PostingOf(before, gram) + Added(gram, grams[..k + 1], id)
  {
    hide Added, PostingOf;
    postings := current[grams[k] := PostingOf(current, grams[k]) + [id]];
    forall gram ensures PostingOf(postings, gram) == PostingOf(before, gram) + Added(gram, grams[..k + 1], id) {
      AddedNext(grams, k, id, gram);
      PostingUpdated(current, grams[k], id, gram);
      assert PostingOf(current, gram) == PostingOf(before, gram) + Added(gram, grams[..k], id);
      Associate(PostingOf(before, gram), Added(gram, grams[..k], id), if gram == grams[k] then [id] else []);
    }
  }

  lemma AddedNext<G(!new)>(grams: seq<G>, k: nat, id: nat, gram: G)
    requires NoRepeats(grams) && k < |grams|
    ensures Added(gram, grams[..k + 1], id) == Added(gram, grams[..k], id) + if gram == grams[k] then [id] else []
  {
    assert grams[..k + 1] == grams[..k] + [grams[k]];
    assert grams[k] !in grams[..k];
  }

  lemma PostingUpdated<G(!new)>(current: Postings<G>, added: G, id: nat, gram: G)
    ensures PostingOf(current[added := PostingOf(current, added) + [id]], gram)
         == PostingOf(current, gram) + if gram == added then [id] else []
  {
  }

  lemma PostingsExtend<G(!new)>(before: Postings<G>, after: Postings<G>, surfaceGrams: seq<seq<G>>, grams: seq<G>)
    requires ArePostings(before, surfaceGrams)
    requires forall gram {:trigger PostingOf(after, gram)} ::
      PostingOf(after, gram) == PostingOf(before, gram) + Added(gram, grams, |surfaceGrams|)
    ensures ArePostings(after, surfaceGrams + [grams])
  {
    forall gram ensures PostingOf(after, gram) == Holders(surfaceGrams + [grams], gram, |surfaceGrams| + 1) {
      assert PostingOf(before, gram) == Holders(surfaceGrams, gram, |surfaceGrams|);
      HoldersExtend(surfaceGrams, grams, gram, |surfaceGrams|);
    }
  }

  lemma {:induction false} StreamIsFlattened<G(!new)>(postings: Postings<G>, order: seq<G>)
    ensures Stream(postings, order) == Flatten(Map(gram => PostingOf(postings, gram), order))
  {
    if order != [] {
      var n := |order| - 1;
      StreamIsFlattened(postings, order[..n]);
      assert Map(gram => PostingOf(postings, gram), order)[..n] == Map(gram => PostingOf(postings, gram), order[..n]);
    }
  }

  lemma StreamLengthPermutes<G(!new)>(postings: Postings<G>, a: seq<G>, b: seq<G>)
    requires multiset(a) == multiset(b)
    ensures |Stream(postings, a)| == |Stream(postings, b)|
  {
    var f := gram => PostingOf(postings, gram);
    StreamIsFlattened(postings, a);
    StreamIsFlattened(postings, b);
    MapPermute(f, a, b);
    FlattenPermute(Map(f, a), Map(f, b));
    assert |multiset(Stream(postings, a))| == |Stream(postings, a)|;
    assert |multiset(Stream(postings, b))| == |Stream(postings, b)|;
  }
}
