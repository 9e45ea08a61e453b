// The trigram index over surfaces, and its capped lookup.
module CharIndex {
  import opened CaseIds
  import opened EditDistance
  import opened EntityProposals
  import opened PostingLists
  import opened Products
  import opened Sorting
  import opened SurfaceScores

  type Gram = string

  // ----- grams

  function Framed(value: string): (framed: string)
    ensures |framed| == |value| + 2 && framed[0] == '^' && framed[|value| + 1] == '$'
    ensures framed[1..|value| + 1] == value
  {
    "^" + value + "$"
  }

  function Windows(framed: string): (windows: seq<Gram>)
    requires |framed| >= 3
    ensures |windows| == |framed| - 2
    ensures forall k | 0 <= k < |windows| :: windows[k] == framed[k..k + 3]
  {
    seq(|framed| - 2, k requires 0 <= k < |framed| - 2 => framed[k..k + 3])
  }

  function Grams(value: string): seq<Gram> {
    var framed := Framed(value);
    if |framed| <= 3 then [framed] else Sort(Distinct(Windows(framed)), Le)
  }

  ghost predicate WindowAt(value: string, gram: Gram, k: nat) {
    k + 3 <= |Framed(value)| && gram == Framed(value)[k..k + 3]
  }

  lemma ShortFrame(value: string, gram: Gram)
    requires |value| <= 1
    ensures gram == Framed(value) <==> (value == "" && gram == "^$") || exists k: nat :: WindowAt(value, gram, k)
  {
    if |value| == 1 {
      assert Framed(value)[0..3] == Framed(value);
      assert WindowAt(value, Framed(value), 0);
      assert forall k: nat :: WindowAt(value, gram, k) ==> k == 0;
    } else {
      assert Framed(value) == "^$";
      assert forall k: nat :: !WindowAt(value, gram, k);
    }
  }

  // The grams of a value: every window of three of the framed value, once and in order;
  // the whole frame when it is shorter.
  lemma GramsAreWindows(value: string, gram: Gram)
    ensures NoRepeats(Grams(value)) && Ordered(Grams(value), Le)
    ensures gram in Grams(value) <==> (value == "" && gram == "^$") || exists k: nat :: WindowAt(value, gram, k)
  {
    var framed := Framed(value);
    if |framed| <= 3 {
      ShortFrame(value, gram);
    } else {
      var windows := Windows(framed);
      LeIsTotalPreorder();
      SortOrdered(Distinct(windows), Le);
      RearrangedNoRepeats(Distinct(windows), Grams(value));
      assert gram in Grams(value) <==> gram in multiset(Grams(value));
      assert gram in windows <==> gram in multiset(Distinct(windows));
      if gram in windows {
        var k: nat :| k < |windows| && windows[k] == gram;
        assert WindowAt(value, gram, k);
      }
      if k: nat :| WindowAt(value, gram, k) {
        assert windows[k] == gram;
      }
    }
  }

  // Shorter postings first, ties in gram order.
  predicate ShorterFirst(postings: Postings<Gram>, x: Gram, y: Gram) {
    |PostingOf(postings, x)| < |PostingOf(postings, y)|
    || (|PostingOf(postings, x)| == |PostingOf(postings, y)| && Le(x, y))
  }

  // The grams of a query in the order in which their postings are read.
  function ReadingOrder(postings: Postings<Gram>, query: seq<Gram>): seq<Gram> {
    Sort(query, (x, y) => ShorterFirst(postings, x, y))
  }

  // ----- scoring

  function Dice(common: nat, queryCount: nat, surfaceCount: nat): real {
    var denominator := queryCount + surfaceCount;
    if denominator == 0 then 0.0 else 2.0 * common as real / denominator as real
  }

  function ScoreOf(names: seq<string>, surfaceGrams: seq<seq<Gram>>, query: seq<Gram>, id: nat, common: nat): Scored
    requires id < |names| == |surfaceGrams|
  {
    Scored(Dice(common, |query|, |surfaceGrams[id]|), names[id], id)
  }

  // The score is twice the overlap per gram of either side: zero without overlap, one for equal grams.
  lemma DiceMeans(common: nat, queryCount: nat, surfaceCount: nat)
    requires queryCount + surfaceCount > 0
    ensures Dice(common, queryCount, surfaceCount) * (queryCount + surfaceCount) as real == 2.0 * common as real
    ensures common <= queryCount && common <= surfaceCount ==>
      (Dice(common, queryCount, surfaceCount) == 1.0 <==> common == queryCount == surfaceCount)
  {
    QuotientBack(2.0 * common as real, (queryCount + surfaceCount) as real);
  }

  lemma QuotientBack(x: real, n: real)
    requires n > 0.0
    ensures x / n * n == x && (x / n == 1.0 <==> x == n)
  {
  }

  // ----- brute force

  function QueryGrams(normalized: string): seq<Gram> { if normalized == "" then [] else Grams(normalized) }

  // Every surface below `n` that shares a gram with the query, scored by intersection.
  function AllScored(names: seq<string>, surfaceGrams: seq<seq<Gram>>, query: seq<Gram>, n: nat): seq<Scored>
    requires n <= |names| == |surfaceGrams|
  {
    if n == 0 then []
    else
      var m := n - 1;
      var common := |Shared(query, surfaceGrams[m])|;
      AllScored(names, surfaceGrams, query, m) +
      if common > 0 then [ScoreOf(names, surfaceGrams, query, m, common)] else []
  }

  // Every surface below `n` that was met, scored by what was counted.
  function MetScored(names: seq<string>, surfaceGrams: seq<seq<Gram>>, query: seq<Gram>, overlap: multiset<nat>,
                     n: nat): seq<Scored>
    requires n <= |names| == |surfaceGrams|
  {
    if n == 0 then []
    else
      var m := n - 1;
      MetScored(names, surfaceGrams, query, overlap, m) +
      if overlap[m] > 0 then [ScoreOf(names, surfaceGrams, query, m, overlap[m])] else []
  }

  // Where every shared gram was counted, brute force finds the same.
  lemma {:induction false} MetIsAll(names: seq<string>, surfaceGrams: seq<seq<Gram>>, query: seq<Gram>,
                                    overlap: multiset<nat>, n: nat)
    requires n <= |names| == |surfaceGrams|
    requires forall id: nat :: overlap[id] == Common(query, surfaceGrams, id)
    ensures MetScored(names, surfaceGrams, query, overlap, n) == AllScored(names, surfaceGrams, query, n)
  {
    if n > 0 {
      MetIsAll(names, surfaceGrams, query, overlap, n - 1);
      assert overlap[n - 1] == Common(query, surfaceGrams, n - 1);
    }
  }

  lemma {:induction false} MetMember(names: seq<string>, surfaceGrams: seq<seq<Gram>>, query: seq<Gram>,
                                     overlap: multiset<nat>, n: nat, x: Scored)
    requires n <= |names| == |surfaceGrams|
    ensures x in MetScored(names, surfaceGrams, query, overlap, n) <==>
      x.id < n && overlap[x.id] > 0 && x == ScoreOf(names, surfaceGrams, query, x.id, overlap[x.id])
  {
    if n > 0 { MetMember(names, surfaceGrams, query, overlap, n - 1, x); }
  }

  lemma {:induction false} MetNoRepeats(names: seq<string>, surfaceGrams: seq<seq<Gram>>, query: seq<Gram>,
                                        overlap: multiset<nat>, n: nat)
    requires n <= |names| == |surfaceGrams|
    ensures NoRepeats(MetScored(names, surfaceGrams, query, overlap, n))
  {
    if n > 0 {
      var m := n - 1;
      MetNoRepeats(names, surfaceGrams, query, overlap, m);
      var front := MetScored(names, surfaceGrams, query, overlap, m);
      forall k | 0 <= k < |front| ensures front[k].id < m {
        MetMember(names, surfaceGrams, query, overlap, m, front[k]);
      }
    }
  }

  // ----- the index

  // A collapsed surface: its entities in order, and where it comes from.
  datatype Entry = Entry(surface: string, ids: seq<string>, sources: seq<string>)

  class Index {
    var surfaces: seq<string>
    var surfaceGrams: seq<seq<Gram>>
    var entityIds: seq<seq<string>>
    var surfaceSources: seq<seq<string>>
    var canonicalTitles: map<string, string>
    var postings: Postings<Gram>

    ghost predicate Valid()
      reads this
    {
      && |surfaceGrams| == |surfaces| == |entityIds|
      && (forall id | 0 <= id < |surfaces| :: surfaceGrams[id] == Grams(surfaces[id]))
      && ArePostings(postings, surfaceGrams)
      && Entities(entityIds, surfaceSources, canonicalTitles).Titled()
    }

    // The surfaces that were added, in order.
    ghost predicate Holds(entries: seq<Entry>)
      reads this
    {
      && |surfaces| == |entityIds| == |surfaceSources| == |entries|
      && forall k | 0 <= k < |entries| ::
           && surfaces[k] == entries[k].surface
           && entityIds[k] == entries[k].ids
           && surfaceSources[k] == entries[k].sources
    }

    // Every entity of a surface was read with its title.
    constructor (entries: seq<Entry>, titles: map<string, string>)
      requires forall k, i | 0 <= k < |entries| && 0 <= i < |entries[k].ids| :: entries[k].ids[i] in titles
      ensures Valid() && Holds(entries) && canonicalTitles == titles
    {
      hide Grams;
      surfaces, surfaceGrams, entityIds, surfaceSources, postings := [], [], [], [], map[];
      canonicalTitles := titles;
      new;
      for n := 0 to |entries|
        invariant Valid() && Holds(entries[..n]) && canonicalTitles == titles
      {
        AddSurface(entries[n]);
        assert entries[..n + 1] == entries[..n] + [entries[n]];
      }
      assert entries[..|entries|] == entries;
    }

    method AddSurface(entry: Entry)
      requires Valid() && forall i | 0 <= i < |entry.ids| :: entry.ids[i] in canonicalTitles
      modifies this
      ensures Valid() && canonicalTitles == old(canonicalTitles)
      ensures surfaces == old(surfaces) + [entry.surface]
      ensures entityIds == old(entityIds) + [entry.ids] && surfaceSources == old(surfaceSources) + [entry.sources]
    {
      hide Grams;
      var id, grams := |surfaces|, Grams(entry.surface);
      GramsAreWindows(entry.surface, "");
      postings := AddPostings(postings, surfaceGrams, grams);
      surfaces := surfaces + [entry.surface];
      surfaceGrams := surfaceGrams + [grams];
      entityIds := entityIds + [entry.ids];
      surfaceSources := surfaceSources + [entry.sources];
    }

    // `lookup`: reads postings up to the cap, scores the surfaces met, and proposes the entities of the best.
    method Lookup(normalized: string, cap: int, proposalCap: nat, fold: string -> string)
      returns (proposals: seq<Proposal>, matches: seq<Scored>, overlap: multiset<nat>, surfaceScores: nat,
               postingLookups: nat, postingsRead: nat, saturated: bool)
      requires Valid()
      ensures saturated <==>
        QueryGrams(normalized) != [] && (cap <= 0 || |Stream(postings, QueryGrams(normalized))| > cap)
      ensures postingsRead == Within(cap, |Stream(postings, QueryGrams(normalized))|)
      ensures Stops(postings, ReadingOrder(postings, QueryGrams(normalized)), cap, postingLookups, saturated)
      ensures HasReadTo(postings, ReadingOrder(postings, QueryGrams(normalized)), overlap, postingsRead)
      ensures forall id: nat | id < |surfaces| ::
        overlap[id] <= |Shared(QueryGrams(normalized), Grams(surfaces[id]))|
      ensures !saturated ==> forall id: nat | id < |surfaces| ::
        overlap[id] == |Shared(QueryGrams(normalized), Grams(surfaces[id]))|
      ensures AllInUnit(matches) && ScoresFall(matches)
      ensures var met := MetScored(surfaces, surfaceGrams, QueryGrams(normalized), overlap, |surfaces|);
        && surfaceScores == |met|
        && matches == Reported(normalized, met, proposalCap)
        && (!saturated ==> met == AllScored(surfaces, surfaceGrams, QueryGrams(normalized), |surfaces|))
      ensures Indexed(Entities(entityIds, surfaceSources, canonicalTitles), matches)
      ensures proposals == Proposals(Entities(entityIds, surfaceSources, canonicalTitles), fold, matches, proposalCap)
      ensures forall x | x in proposals :: 0.0 <= x.score <= 1.0
    {
      hide Stream, AllScored, MetScored, Reported, Grams, HasReadTo, Proposals, ScoresFall, Stops, ReadingOrder,
           ArePostings, AllInUnit;
      GramsAreWindows(normalized, "");
      matches, overlap, surfaceScores, postingLookups, postingsRead, saturated :=
        LookupIn(surfaces, surfaceGrams, postings, normalized, QueryGrams(normalized), cap, proposalCap);
      forall id: nat | id < |surfaces|
        ensures Common(QueryGrams(normalized), surfaceGrams, id)
             == |Shared(QueryGrams(normalized), Grams(surfaces[id]))| {
      }
      proposals := Propose(Entities(entityIds, surfaceSources, canonicalTitles), fold, matches, proposalCap);
      ProposalsInUnit(Entities(entityIds, surfaceSources, canonicalTitles), fold, matches, proposalCap);
    }
  }

  method LookupIn(names: seq<string>, surfaceGrams: seq<seq<Gram>>, postings: Postings<Gram>, normalized: string,
                  query: seq<Gram>, cap: int, proposalCap: nat)
    returns (matches: seq<Scored>, overlap: multiset<nat>, surfaceScores: nat, postingLookups: nat,
             postingsRead: nat, saturated: bool)
    requires |names| == |surfaceGrams| && ArePostings(postings, surfaceGrams) && NoRepeats(query)
    ensures saturated <==> query != [] && (cap <= 0 || |Stream(postings, query)| > cap)
    ensures postingsRead == Within(cap, |Stream(postings, query)|)
    ensures Stops(postings, ReadingOrder(postings, query), cap, postingLookups, saturated)
    ensures forall id: nat :: overlap[id] <= Common(query, surfaceGrams, id)
    ensures !saturated ==> forall id: nat :: overlap[id] == Common(query, surfaceGrams, id)
    ensures AllInUnit(matches) && ScoresFall(matches)
    ensures forall k | 0 <= k < |matches| :: matches[k].id < |names|
    ensures HasReadTo(postings, ReadingOrder(postings, query), overlap, postingsRead)
    ensures var met := MetScored(names, surfaceGrams, query, overlap, |names|);
      && surfaceScores == |met|
      && matches == Reported(normalized, met, proposalCap)
      && (!saturated ==> met == AllScored(names, surfaceGrams, query, |names|))
  {
    hide Stream, AllScored, MetScored, Reported, ScoresFall;
    var order := ReadingOrder(postings, query);
    ShorterFirstIsByLength(postings, query);
    StreamLengthPermutes(postings, order, query);
    overlap, postingsRead, postingLookups, saturated := Scan(postings, order, cap);
    ghost var read := postingsRead;
    forall id: nat
      ensures overlap[id] <= Common(query, surfaceGrams, id)
      ensures !saturated ==> overlap[id] == Common(query, surfaceGrams, id)
    {
      ScanCounts(postings, surfaceGrams, query, order, read, id);
    }
    var scored := ScoreAll(names, surfaceGrams, query, overlap);
    surfaceScores := |scored|;
    ghost var met := MetScored(names, surfaceGrams, query, overlap, |names|);
    ScoredIsMet(names, surfaceGrams, query, overlap, scored);
    SameSize(scored, met);
    ReportedForgetsOrder(normalized, scored, met, proposalCap);
    if !saturated {
      MetIsAll(names, surfaceGrams, query, overlap, |names|);
    }
    matches := Report(normalized, scored, proposalCap);
    ScoredInUnit(names, surfaceGrams, query, overlap, scored);
    ReportedInUnit(normalized, scored, proposalCap);
    ReportedFalls(normalized, scored, proposalCap);
    ReportedIds(normalized, scored, proposalCap, |names|);
  }

  // How many postings a scan looks up: all of them, or up to the one at which the cap stops it.
  ghost predicate Stops(postings: Postings<Gram>, order: seq<Gram>, cap: int, lookups: nat, saturated: bool) {
    && lookups <= |order|
    && (!saturated ==> lookups == |order|)
    && (saturated ==> lookups > 0 && |Stream(postings, order[..lookups - 1])| <= Within(cap, |Stream(postings, order)|))
    && (saturated && cap > 0 ==> |Stream(postings, order[..lookups])| > cap)
  }

  // ----- scores are probabilities

  lemma {:induction false} SetOfBound(grams: seq<Gram>)
    ensures |(set gram | gram in grams)| <= |grams|
  {
    if grams != [] {
      var n := |grams| - 1;
      SetOfBound(grams[..n]);
      assert (set gram | gram in grams) == (set gram | gram in grams[..n]) + {grams[n]};
    }
  }

  lemma SubsetBound(small: set<Gram>, big: set<Gram>)
    requires small <= big
    ensures |small| <= |big|
  {
    assert big == small + (big - small);
  }

  lemma SharedBound(query: seq<Gram>, surface: seq<Gram>)
    ensures |Shared(query, surface)| <= |query| && |Shared(query, surface)| <= |surface|
  {
    SubsetBound(Shared(query, surface), set gram | gram in query);
    SubsetBound(Shared(query, surface), set gram | gram in surface);
    SetOfBound(query);
    SetOfBound(surface);
  }

  lemma DiceInUnit(common: nat, queryCount: nat, surfaceCount: nat)
    requires common <= queryCount && common <= surfaceCount
    ensures 0.0 <= Dice(common, queryCount, surfaceCount) <= 1.0
  {
    var denominator := queryCount + surfaceCount;
    if denominator > 0 {
      RatioInUnit(2 * common, denominator);
    }
  }

  lemma ScoredInUnit(names: seq<string>, surfaceGrams: seq<seq<Gram>>, query: seq<Gram>, overlap: multiset<nat>,
                     scored: seq<Scored>)
    requires |names| == |surfaceGrams|
    requires forall id: nat :: overlap[id] <= Common(query, surfaceGrams, id)
    requires forall x | x in scored ::
      x.id in overlap && x.id < |names| && x == ScoreOf(names, surfaceGrams, query, x.id, overlap[x.id])
    ensures AllInUnit(scored)
  {
    forall x | x in scored ensures 0.0 <= x.score <= 1.0 {
      SharedBound(query, surfaceGrams[x.id]);
      DiceInUnit(overlap[x.id], |query|, |surfaceGrams[x.id]|);
    }
  }

  ghost predicate IsDice(score: real, common: nat, query: seq<Gram>, surface: seq<Gram>) {
    query != [] || surface != [] ==> score * (|query| + |surface|) as real == 2.0 * common as real
  }

  lemma ScoreIsDice(common: nat, query: seq<Gram>, surface: seq<Gram>)
    ensures IsDice(Dice(common, |query|, |surface|), common, query, surface)
  {
    if |query| + |surface| > 0 { DiceMeans(common, |query|, |surface|); }
  }

  // Every surface met by the scan, scored by what it counted.
  method ScoreAll(names: seq<string>, surfaceGrams: seq<seq<Gram>>, query: seq<Gram>, overlap: multiset<nat>)
    returns (scored: seq<Scored>)
    requires |names| == |surfaceGrams|
    requires forall id: nat | id in overlap :: id < |names|
    ensures NoRepeats(scored) && |scored| == |set id | id in overlap|
    ensures forall x :: x in scored <==>
      x.id in overlap && x.id < |names| && x == ScoreOf(names, surfaceGrams, query, x.id, overlap[x.id])
    ensures forall x | x in scored ::
      x.surface == names[x.id] && IsDice(x.score, overlap[x.id], query, surfaceGrams[x.id])
  {
    hide Dice;
    scored := [];
    var rest := set id | id in overlap;
    while rest != {}
      invariant forall id: nat | id in rest :: id in overlap
      invariant NoRepeats(scored) && |scored| + |rest| == |set id | id in overlap|
      invariant forall x :: x in scored <==>
        x.id in overlap && x.id !in rest && x.id < |names| &&
          x == ScoreOf(names, surfaceGrams, query, x.id, overlap[x.id])
      invariant forall x | x in scored :: IsDice(x.score, overlap[x.id], query, surfaceGrams[x.id])
      decreases rest
    {
      var id :| id in rest;
      ScoreIsDice(overlap[id], query, surfaceGrams[id]);
      scored := scored + [ScoreOf(names, surfaceGrams, query, id, overlap[id])];
      rest := rest - {id};
    }
  }

  lemma ScoredIsMet(names: seq<string>, surfaceGrams: seq<seq<Gram>>, query: seq<Gram>, overlap: multiset<nat>,
                    scored: seq<Scored>)
    requires |names| == |surfaceGrams| && NoRepeats(scored)
    requires forall x :: x in scored <==>
      x.id in overlap && x.id < |names| && x == ScoreOf(names, surfaceGrams, query, x.id, overlap[x.id])
    ensures multiset(scored) == multiset(MetScored(names, surfaceGrams, query, overlap, |names|))
  {
    var met := MetScored(names, surfaceGrams, query, overlap, |names|);
    MetNoRepeats(names, surfaceGrams, query, overlap, |names|);
    forall x ensures x in scored <==> x in met {
      MetMember(names, surfaceGrams, query, overlap, |names|, x);
    }
    DistinctSameMembers(scored, met);
  }

  // Postings are read shortest first, those of one length in the order of their grams.
  lemma ReadingOrderMeans(postings: Postings<Gram>, query: seq<Gram>)
    ensures var order := ReadingOrder(postings, query);
      && multiset(order) == multiset(query)
      && forall i, j | 0 <= i < j < |order| ::
           && |PostingOf(postings, order[i])| <= |PostingOf(postings, order[j])|
           && (|PostingOf(postings, order[i])| == |PostingOf(postings, order[j])| ==> Le(order[i], order[j]))
  {
    hide PostingOf;
    ShorterFirstIsTotalPreorder(postings);
    SortOrdered(query, (x, y) => ShorterFirst(postings, x, y));
    var order := ReadingOrder(postings, query);
    forall i, j | 0 <= i < j < |order| ensures ShorterFirst(postings, order[i], order[j]) {
    }
  }

  lemma ShorterFirstIsTotalPreorder(postings: Postings<Gram>)
    ensures TotalPreorder((x, y) => ShorterFirst(postings, x, y))
  {
    hide PostingOf;
    var le := (x, y) => ShorterFirst(postings, x, y);
    LeIsTotalPreorder();
    forall x, y ensures le(x, y) || le(y, x) {
      assert Le(x, y) || Le(y, x);
    }
    forall x, y, z | le(x, y) && le(y, z) ensures le(x, z) {
      assert Le(x, y) && Le(y, z) ==> Le(x, z);
    }
  }

  lemma ShorterFirstIsByLength(postings: Postings<Gram>, query: seq<Gram>)
    ensures ByLength(postings, ReadingOrder(postings, query))
  {
    ReadingOrderMeans(postings, query);
  }
}
