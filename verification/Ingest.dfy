// Building a corpus from a dump: page by page in one process, or in shards that are merged.
module Ingest {
  import opened Sorting
  import opened Wrappers

  // ----- tables

  // The digested cell is the semantic key of a chunk; other tables leave it empty.
  datatype Row = Row(key: seq<string>, cells: seq<string>, digested: string)

  type Table = seq<Row>

  predicate Keyed(table: Table, key: seq<string>) { exists k | 0 <= k < |table| :: table[k].key == key }

  // INSERT OR IGNORE
  function InsertOrIgnore(table: Table, row: Row): Table {
    if Keyed(table, row.key) then table else table + [row]
  }

  function InsertAll(table: Table, rows: seq<Row>): Table {
    if rows == [] then table else InsertOrIgnore(InsertAll(table, rows[..|rows| - 1]), rows[|rows| - 1])
  }

  lemma InsertLast(table: Table, rows: seq<Row>)
    requires rows != []
    ensures InsertAll(table, rows) == InsertOrIgnore(InsertAll(table, rows[..|rows| - 1]), rows[|rows| - 1])
  {
  }

  lemma InsertNone(table: Table)
    ensures InsertAll(table, []) == table
  {
  }

  lemma {:induction false} InsertConcat(table: Table, a: seq<Row>, b: seq<Row>)
    ensures InsertAll(table, a + b) == InsertAll(InsertAll(table, a), b)
  {
    hide InsertAll, InsertOrIgnore;
    if b == [] {
      assert a + b == a;
      InsertNone(InsertAll(table, a));
    } else {
      var n := |b| - 1;
      InsertConcat(table, a, b[..n]);
      assert (a + b)[..|a| + n] == a + b[..n];
      InsertLast(table, a + b);
      InsertLast(InsertAll(table, a), b);
    }
  }

  // ----- what pages contribute

  datatype Redirect = Redirect(documentId: string, source: string, target: string)

  datatype Anchor = Anchor(text: string, target: string)

  datatype PageRows = PageRows(document: Row, aliasRow: Row, redirects: seq<Redirect>, chunks: seq<Row>, fts: seq<Row>,
                               times: seq<Row>, links: seq<Row>, categories: seq<Row>, anchors: set<Anchor>)

  // A shard holds the rows as collected; a store has no two rows of one key in a keyed table.
  datatype Corpus = Corpus(documents: seq<Row>, chunks: seq<Row>, fts: seq<Row>, aliases: seq<Row>, links: seq<Row>,
                           categories: seq<Row>, times: seq<Row>, redirects: seq<Redirect>, anchors: set<Anchor>,
                           articles: nat, chunkCount: nat, linksFound: nat)

  const EMPTY := Corpus([], [], [], [], [], [], [], [], {}, 0, 0, 0)

  function OfPage(page: PageRows): Corpus {
    Corpus([page.document], page.chunks, page.fts, [page.aliasRow], page.links, page.categories, page.times,
           page.redirects, page.anchors, 1, |page.chunks|, |page.links|)
  }

  // One shard's rows followed by another's.
  function Combine(a: Corpus, b: Corpus): Corpus {
    Corpus(a.documents + b.documents, a.chunks + b.chunks, a.fts + b.fts, a.aliases + b.aliases, a.links + b.links,
           a.categories + b.categories, a.times + b.times, a.redirects + b.redirects, a.anchors + b.anchors,
           a.articles + b.articles, a.chunkCount + b.chunkCount, a.linksFound + b.linksFound)
  }

  // The rows of some pages, in page order.
  function ShardOf(pages: seq<PageRows>): Corpus {
    if pages == [] then EMPTY else Combine(ShardOf(pages[..|pages| - 1]), OfPage(pages[|pages| - 1]))
  }

  function InsertShard(store: Corpus, shard: Corpus): Corpus {
    Corpus(InsertAll(store.documents, shard.documents), InsertAll(store.chunks, shard.chunks), store.fts + shard.fts,
           InsertAll(store.aliases, shard.aliases), InsertAll(store.links, shard.links),
           InsertAll(store.categories, shard.categories), InsertAll(store.times, shard.times),
           store.redirects + shard.redirects, store.anchors + shard.anchors,
           store.articles + shard.articles, store.chunkCount + shard.chunkCount, store.linksFound + shard.linksFound)
  }

  // The store that one shard of all the pages makes.
  function StoreOf(pages: seq<PageRows>): Corpus { InsertShard(EMPTY, ShardOf(pages)) }

  lemma InsertCombined(store: Corpus, a: Corpus, b: Corpus)
    ensures InsertShard(store, Combine(a, b)) == InsertShard(InsertShard(store, a), b)
  {
    hide InsertAll;
    InsertConcat(store.documents, a.documents, b.documents);
    InsertConcat(store.chunks, a.chunks, b.chunks);
    InsertConcat(store.aliases, a.aliases, b.aliases);
    InsertConcat(store.links, a.links, b.links);
    InsertConcat(store.categories, a.categories, b.categories);
    InsertConcat(store.times, a.times, b.times);
    assert store.fts + (a.fts + b.fts) == store.fts + a.fts + b.fts;
    assert store.redirects + (a.redirects + b.redirects) == store.redirects + a.redirects + b.redirects;
    assert store.anchors + (a.anchors + b.anchors) == store.anchors + a.anchors + b.anchors;
  }

  lemma InsertNothing(store: Corpus)
    ensures InsertShard(store, EMPTY) == store
  {
    assert store.fts + [] == store.fts && store.redirects + [] == store.redirects;
    assert store.anchors + {} == store.anchors;
  }

  // Merging the shard of further pages into the store of the first gives the store of them all.
  lemma {:induction false} MergeShard(store: Corpus, first: seq<PageRows>, more: seq<PageRows>)
    ensures InsertShard(store, ShardOf(first + more)) == InsertShard(InsertShard(store, ShardOf(first)), ShardOf(more))
    decreases |more|
  {
    hide InsertShard, Combine;
    if more == [] {
      assert first + more == first;
      InsertNothing(InsertShard(store, ShardOf(first)));
    } else {
      var n := |more| - 1;
      MergeShard(store, first, more[..n]);
      assert (first + more)[..|first| + n] == first + more[..n];
      InsertCombined(store, ShardOf(first + more[..n]), OfPage(more[n]));
      InsertCombined(InsertShard(store, ShardOf(first)), ShardOf(more[..n]), OfPage(more[n]));
    }
  }

  // ----- what a store holds

  function DocumentRow(page: PageRows): Row { page.document }
  function AliasRow(page: PageRows): Row { page.aliasRow }
  function ChunkRows(page: PageRows): seq<Row> { page.chunks }
  function SearchRows(page: PageRows): seq<Row> { page.fts }
  function LinkRows(page: PageRows): seq<Row> { page.links }
  function CategoryRows(page: PageRows): seq<Row> { page.categories }
  function TimeRows(page: PageRows): seq<Row> { page.times }
  function RedirectRows(page: PageRows): seq<Redirect> { page.redirects }

  lemma FlattenNext<T>(f: PageRows -> seq<T>, pages: seq<PageRows>)
    requires pages != []
    ensures var n := |pages| - 1; Flatten(Map(f, pages)) == Flatten(Map(f, pages[..n])) + f(pages[n])
  {
    var n := |pages| - 1;
    MapStep(f, pages, n);
    assert pages[..n + 1] == pages;
    FlattenLast(Map(f, pages));
    assert Map(f, pages)[..n] == Map(f, pages[..n]);
  }

  // A shard holds, table by table, the rows of its pages end to end.
  lemma {:induction false} ShardTables(pages: seq<PageRows>)
    ensures var shard := ShardOf(pages);
      && shard.documents == Map(DocumentRow, pages) && shard.aliases == Map(AliasRow, pages)
      && shard.chunks == Flatten(Map(ChunkRows, pages)) && shard.fts == Flatten(Map(SearchRows, pages))
      && shard.links == Flatten(Map(LinkRows, pages)) && shard.categories == Flatten(Map(CategoryRows, pages))
      && shard.times == Flatten(Map(TimeRows, pages)) && shard.redirects == Flatten(Map(RedirectRows, pages))
      && (forall a :: a in shard.anchors <==> HasAnchor(pages, a))
      && shard.articles == |pages| && shard.chunkCount == |shard.chunks| && shard.linksFound == |shard.links|
  {
    hide Flatten, HasAnchor;
    if pages == [] {
      NoAnchors();
      FlattenNone<Row>();
      FlattenNone<Redirect>();
    } else {
      var n := |pages| - 1;
      ShardTables(pages[..n]);
      TablesNext(pages);
      forall a ensures HasAnchor(pages, a) <==> HasAnchor(pages[..n], a) || a in pages[n].anchors {
        AnchorsNext(pages, a);
      }
    }
  }

  lemma TablesNext(pages: seq<PageRows>)
    requires pages != []
    ensures var front, last := pages[..|pages| - 1], pages[|pages| - 1];
      && Map(DocumentRow, pages) == Map(DocumentRow, front) + [last.document]
      && Map(AliasRow, pages) == Map(AliasRow, front) + [last.aliasRow]
      && Flatten(Map(ChunkRows, pages)) == Flatten(Map(ChunkRows, front)) + last.chunks
      && Flatten(Map(SearchRows, pages)) == Flatten(Map(SearchRows, front)) + last.fts
      && Flatten(Map(LinkRows, pages)) == Flatten(Map(LinkRows, front)) + last.links
      && Flatten(Map(CategoryRows, pages)) == Flatten(Map(CategoryRows, front)) + last.categories
      && Flatten(Map(TimeRows, pages)) == Flatten(Map(TimeRows, front)) + last.times
      && Flatten(Map(RedirectRows, pages)) == Flatten(Map(RedirectRows, front)) + last.redirects
  {
    hide Flatten, Map;
    var n := |pages| - 1;
    assert pages[..n + 1] == pages;
    MapStep(DocumentRow, pages, n);
    MapStep(AliasRow, pages, n);
    FlattenNext(ChunkRows, pages);
    FlattenNext(SearchRows, pages);
    FlattenNext(LinkRows, pages);
    FlattenNext(CategoryRows, pages);
    FlattenNext(TimeRows, pages);
    FlattenNext(RedirectRows, pages);
  }

  ghost predicate HasAnchor(pages: seq<PageRows>, a: Anchor) {
    exists k :: 0 <= k < |pages| && a in pages[k].anchors
  }

  lemma NoAnchors()
    ensures forall a :: !HasAnchor([], a)
  {
  }

  lemma AnchorsNext(pages: seq<PageRows>, a: Anchor)
    requires pages != []
    ensures HasAnchor(pages, a) <==> HasAnchor(pages[..|pages| - 1], a) || a in pages[|pages| - 1].anchors
  {
    var n := |pages| - 1;
    if k :| 0 <= k < |pages| && a in pages[k].anchors {
      assert k < n ==> a in pages[..n][k].anchors;
    }
  }

  // A table keeps of the inserted rows the first of every key.
  ghost predicate KeepsFirst(rows: seq<Row>, table: Table) {
    && (forall i, j | 0 <= i < j < |table| :: table[i].key != table[j].key)
    && (forall row :: row in table <==> exists k :: 0 <= k < |rows| && rows[k] == row && !Keyed(rows[..k], row.key))
  }

  lemma {:induction false} InsertKeepsFirst(rows: seq<Row>)
    ensures KeepsFirst(rows, InsertAll([], rows))
  {
    if rows != [] {
      var n := |rows| - 1;
      InsertKeepsFirst(rows[..n]);
      KeptNext(rows, InsertAll([], rows[..n]));
    }
  }

  lemma KeptNext(rows: seq<Row>, before: Table)
    requires rows != [] && KeepsFirst(rows[..|rows| - 1], before)
    requires before == InsertAll([], rows[..|rows| - 1])
    ensures KeepsFirst(rows, InsertOrIgnore(before, rows[|rows| - 1]))
  {
    hide InsertAll, Keyed;
    var n := |rows| - 1;
    var after := InsertOrIgnore(before, rows[n]);
    InsertedKeys([], rows[..n], rows[n].key);
    NothingKeyed(rows[n].key);
    KeyedMeans(before, rows[n].key);
    forall k | 0 <= k < n ensures rows[..n][..k] == rows[..k] && rows[..n][k] == rows[k] {
    }
    forall row
      ensures row in after <==> exists k :: 0 <= k < |rows| && rows[k] == row && !Keyed(rows[..k], row.key)
    {
      KeptRow(rows, before, row);
    }
  }

  lemma KeyedMeans(table: Table, key: seq<string>)
    ensures !Keyed(table, key) ==> forall k | 0 <= k < |table| :: table[k].key != key
  {
  }

  lemma KeptRow(rows: seq<Row>, before: Table, row: Row)
    requires rows != [] && KeepsFirst(rows[..|rows| - 1], before)
    requires Keyed(before, rows[|rows| - 1].key) <==> Keyed(rows[..|rows| - 1], rows[|rows| - 1].key)
    ensures row in InsertOrIgnore(before, rows[|rows| - 1]) <==>
      exists k :: 0 <= k < |rows| && rows[k] == row && !Keyed(rows[..k], row.key)
  {
    hide Keyed;
    var n := |rows| - 1;
    if row in before {
      var k :| 0 <= k < n && rows[..n][k] == row && !Keyed(rows[..n][..k], row.key);
      assert rows[..n][..k] == rows[..k];
    }
    if k :| 0 <= k < |rows| && rows[k] == row && !Keyed(rows[..k], row.key) {
      if k < n {
        assert rows[..n][k] == row && rows[..n][..k] == rows[..k];
      }
    }
  }

  // What a build stores: the search rows and redirects of all pages end to end, their anchors together, how much was
  // read, and of every keyed table the first row of each key.
  lemma StoreHolds(pages: seq<PageRows>)
    ensures var store := StoreOf(pages);
      && store.fts == Flatten(Map(SearchRows, pages)) && store.redirects == Flatten(Map(RedirectRows, pages))
      && (forall a :: a in store.anchors <==> HasAnchor(pages, a))
      && store.articles == |pages|
      && store.chunkCount == |Flatten(Map(ChunkRows, pages))| && store.linksFound == |Flatten(Map(LinkRows, pages))|
      && KeepsFirst(Map(DocumentRow, pages), store.documents) && KeepsFirst(Map(AliasRow, pages), store.aliases)
      && KeepsFirst(Flatten(Map(ChunkRows, pages)), store.chunks)
      && KeepsFirst(Flatten(Map(LinkRows, pages)), store.links)
      && KeepsFirst(Flatten(Map(CategoryRows, pages)), store.categories)
      && KeepsFirst(Flatten(Map(TimeRows, pages)), store.times)
  {
    hide Flatten, Map, ShardOf, KeepsFirst, InsertAll, HasAnchor;
    ShardTables(pages);
    var shard := ShardOf(pages);
    InsertKeepsFirst(shard.documents);
    InsertKeepsFirst(shard.aliases);
    InsertKeepsFirst(shard.chunks);
    InsertKeepsFirst(shard.links);
    InsertKeepsFirst(shard.categories);
    InsertKeepsFirst(shard.times);
  }

  // ----- page ranges

  function Clip(n: int, length: nat): (clipped: nat)
    ensures clipped <= length && (0 <= n <= length ==> clipped == n)
    ensures n < 0 ==> clipped == 0
    ensures n > length ==> clipped == length
  {
    if n < 0 then 0 else if n < length then n else length
  }

  // The pages with index in [start, end).
  function Slice<P>(pages: seq<P>, start: int, end: int): seq<P> {
    var from, to := Clip(start, |pages|), Clip(end, |pages|);
    if from <= to then pages[from..to] else []
  }

  lemma SliceNext<P>(pages: seq<P>, start: int, end: int, k: nat)
    requires k < |pages|
    ensures Slice(pages[..k + 1], start, end)
         == Slice(pages[..k], start, end) + if start <= k < end then [pages[k]] else []
  {
    var from, to := Clip(start, k), Clip(end, k);
    if start <= k < end {
      assert pages[..k + 1][from..k + 1] == pages[..k][from..k] + [pages[k]];
    } else if start <= k && from <= to {
      assert pages[..k + 1][from..to] == pages[..k][from..to] + [];
    }
  }

  lemma SliceCut<P>(pages: seq<P>, start: int, end: int, k: nat)
    requires k <= |pages| && (k == |pages| || k >= end)
    ensures Slice(pages[..k], start, end) == Slice(pages, start, end)
  {
    if k == |pages| {
      assert pages[..k] == pages;
    } else {
      var from, to := Clip(start, k), Clip(end, k);
      if start <= end {
        assert pages[..k][from..to] == pages[from..to];
      }
    }
  }

  lemma ReadNext<P>(pages: seq<P>, start: int, end: int, k: nat, read: P -> PageRows)
    requires k < |pages|
    ensures var before := ShardOf(Map(read, Slice(pages[..k], start, end)));
      var after := ShardOf(Map(read, Slice(pages[..k + 1], start, end)));
      after == if start <= k < end then Combine(before, OfPage(read(pages[k]))) else before
  {
    hide Slice, Combine, OfPage;
    SliceNext(pages, start, end, k);
    var front := Slice(pages[..k], start, end);
    if start <= k < end {
      assert Map(read, front + [pages[k]])[..|front|] == Map(read, front);
    } else {
      assert front + [] == front;
    }
  }

  // `process_range`
  method ProcessRange<P>(pages: seq<P>, start: int, end: int, read: P -> PageRows) returns (shard: Corpus)
    ensures shard == ShardOf(Map(read, Slice(pages, start, end)))
  {
    shard := EMPTY;
    var index := 0;
    while index < |pages|
      invariant index <= |pages|
      invariant shard == ShardOf(Map(read, Slice(pages[..index], start, end)))
    {
      ReadNext(pages, start, end, index, read);
      if index >= start {
        if index >= end {
          break;
        }
        shard := Combine(shard, OfPage(read(pages[index])));
      }
      index := index + 1;
    }
    SliceCut(pages, start, end, index);
  }

  // ----- merging

  // The shards hold the rows of these runs of pages.
  ghost predicate AreShards(shards: seq<Corpus>, runs: seq<seq<PageRows>>) {
    |shards| == |runs| && forall k | 0 <= k < |shards| :: shards[k] == ShardOf(runs[k])
  }

  // `merge_shards`: the tables, then the redirects and anchors, then the counters.
  method MergeShards(shards: seq<Corpus>, ghost runs: seq<seq<PageRows>>) returns (store: Corpus)
    requires AreShards(shards, runs)
    ensures store == StoreOf(Flatten(runs))
  {
    hide InsertTables, AddRest, StoreOf, AreShards;
    store := EMPTY;
    for k := 0 to |shards|
      invariant store == MergedTables(shards[..k])
    {
      assert shards[..k + 1][..k] == shards[..k];
      store := InsertTables(store, shards[k]);
    }
    assert shards[..|shards|] == shards;
    for k := 0 to |shards|
      invariant store == CountedIn(MergedTables(shards), shards[..k])
    {
      assert shards[..k + 1][..k] == shards[..k];
      store := AddRest(store, shards[k]);
    }
    MergedIsStore(shards, runs, |shards|);
    SameLength(shards, runs);
    assert runs[..|runs|] == runs;
  }

  lemma SameLength(shards: seq<Corpus>, runs: seq<seq<PageRows>>)
    requires AreShards(shards, runs)
    ensures |shards| == |runs|
  {
  }

  function InsertTables(store: Corpus, shard: Corpus): Corpus {
    store.(documents := InsertAll(store.documents, shard.documents), chunks := InsertAll(store.chunks, shard.chunks),
           fts := store.fts + shard.fts, aliases := InsertAll(store.aliases, shard.aliases),
           links := InsertAll(store.links, shard.links), categories := InsertAll(store.categories, shard.categories),
           times := InsertAll(store.times, shard.times))
  }

  function AddRest(store: Corpus, shard: Corpus): Corpus {
    store.(redirects := store.redirects + shard.redirects, anchors := store.anchors + shard.anchors,
           articles := store.articles + shard.articles, chunkCount := store.chunkCount + shard.chunkCount,
           linksFound := store.linksFound + shard.linksFound)
  }

  ghost function MergedTables(shards: seq<Corpus>): Corpus {
    if shards == [] then EMPTY else InsertTables(MergedTables(shards[..|shards| - 1]), shards[|shards| - 1])
  }

  ghost function CountedIn(store: Corpus, shards: seq<Corpus>): Corpus {
    if shards == [] then store else AddRest(CountedIn(store, shards[..|shards| - 1]), shards[|shards| - 1])
  }

  lemma {:induction false} TablesFirst(store: Corpus, shards: seq<Corpus>, shard: Corpus)
    ensures CountedIn(InsertTables(store, shard), shards) == InsertTables(CountedIn(store, shards), shard)
  {
    if shards != [] { TablesFirst(store, shards[..|shards| - 1], shard); }
  }

  lemma BothPasses(store: Corpus, shard: Corpus)
    ensures AddRest(InsertTables(store, shard), shard) == InsertShard(store, shard)
  {
  }

  lemma EmptyShard()
    ensures ShardOf([]) == EMPTY
  {
  }

  // Two passes over the shards do what one does.
  lemma {:induction false} MergedIsStore(shards: seq<Corpus>, runs: seq<seq<PageRows>>, n: nat)
    requires AreShards(shards, runs) && n <= |shards|
    ensures CountedIn(MergedTables(shards[..n]), shards[..n]) == StoreOf(Flatten(runs[..n]))
  {
    hide InsertTables, AddRest, InsertShard, ShardOf;
    EmptyShard();
    if n > 0 {
      var m := n - 1;
      MergedIsStore(shards, runs, m);
      assert shards[..n][..m] == shards[..m] && runs[..n][..m] == runs[..m];
      TablesFirst(MergedTables(shards[..m]), shards[..m], shards[m]);
      MergeShard(EMPTY, Flatten(runs[..m]), runs[m]);
      BothPasses(StoreOf(Flatten(runs[..m])), shards[m]);
    } else {
      InsertNothing(EMPTY);
    }
  }

  // ----- the whole parallel build

  function Bound(i: nat, limit: int, workers: int): int
    requires workers >= 1
  {
    i * limit / workers
  }

  lemma TimesMonotone(x: int, y: int, w: nat)
    requires x <= y
    ensures x * w <= y * w
  {
    assert (y - x) * w >= 0;
  }

  lemma QuotientOf(a: int, w: int)
    requires w >= 1
    ensures (a / w) * w <= a < (a / w + 1) * w
  {
    assert a == (a / w) * w + a % w;
  }

  lemma DivideMonotone(a: int, b: int, w: int)
    requires a <= b && w >= 1
    ensures a / w <= b / w
  {
    var p, q := a / w, b / w;
    QuotientOf(a, w);
    QuotientOf(b, w);
    if p > q {
      TimesMonotone(q + 1, p, w);
    }
  }

  lemma WholeQuotient(limit: int, w: int)
    requires w >= 1
    ensures w * limit / w == limit
  {
    var q := w * limit / w;
    QuotientOf(w * limit, w);
    if q < limit {
      TimesMonotone(q + 1, limit, w);
    } else if q > limit {
      TimesMonotone(limit + 1, q, w);
    }
  }

  lemma BoundsGrow(i: nat, limit: int, workers: int)
    requires workers >= 1 && limit >= 0
    ensures Bound(i, limit, workers) <= Bound(i + 1, limit, workers)
  {
    assert (i + 1) * limit == i * limit + limit;
    DivideMonotone(i * limit, (i + 1) * limit, workers);
  }

  lemma {:induction false} BoundsOrdered(i: nat, j: nat, limit: int, workers: int)
    requires workers >= 1 && limit >= 0 && i <= j
    ensures Bound(i, limit, workers) <= Bound(j, limit, workers)
    decreases j
  {
    if i < j {
      BoundsOrdered(i, j - 1, limit, workers);
      BoundsGrow(j - 1, limit, workers);
    }
  }

  lemma BoundsEnds(limit: int, workers: int)
    requires workers >= 1
    ensures Bound(0, limit, workers) == 0 && Bound(workers, limit, workers) == limit
  {
    WholeQuotient(limit, workers);
  }

  // What the k-th worker reads.
  ghost function Run<P>(pages: seq<P>, limit: int, workers: int, read: P -> PageRows, k: nat): seq<PageRows>
    requires workers >= 1
  {
    Map(read, Slice(pages, Bound(k, limit, workers), Bound(k + 1, limit, workers)))
  }

  ghost predicate AreRuns<P>(pages: seq<P>, limit: int, workers: int, read: P -> PageRows, runs: seq<seq<PageRows>>)
    requires workers >= 1
  {
    forall k | 0 <= k < |runs| :: runs[k] == Run(pages, limit, workers, read, k)
  }

  lemma SliceJoin<P>(pages: seq<P>, from: int, to: int, read: P -> PageRows)
    requires 0 <= from <= to
    ensures Map(read, pages[..Clip(to, |pages|)])
         == Map(read, pages[..Clip(from, |pages|)]) + Map(read, Slice(pages, from, to))
  {
  }

  // The ranges of the workers cover the pages below the limit, each page once and in order.
  lemma {:induction false} RangesPartition<P>(pages: seq<P>, limit: int, workers: int, read: P -> PageRows,
                                                   runs: seq<seq<PageRows>>, n: nat)
    requires workers >= 1 && limit >= 0 && n <= |runs| && AreRuns(pages, limit, workers, read, runs)
    ensures Flatten(runs[..n]) == Map(read, pages[..Clip(Bound(n, limit, workers), |pages|)])
  {
    if n == 0 {
      BoundsEnds(limit, workers);
    } else {
      hide Bound;
      var m := n - 1;
      RangesPartition(pages, limit, workers, read, runs, m);
      BoundsOrdered(0, m, limit, workers);
      BoundsGrow(m, limit, workers);
      BoundsEnds(limit, workers);
      SliceJoin(pages, Bound(m, limit, workers), Bound(n, limit, workers), read);
      assert runs[..n][..m] == runs[..m];
    }
  }

  function ParallelLimit<P>(pages: seq<P>, limit: Option<int>): int {
    if limit.None? then |pages| else limit.value
  }

  // The pages a parallel build reads.
  function ParallelPages<P>(pages: seq<P>, limit: Option<int>): seq<P> {
    pages[..Clip(ParallelLimit(pages, limit), |pages|)]
  }

  lemma RunsAreAllPages<P>(pages: seq<P>, limit: int, workers: int, read: P -> PageRows, runs: seq<seq<PageRows>>)
    requires workers >= 1 && (limit < 0 ==> workers == 1)
    requires |runs| == workers && AreRuns(pages, limit, workers, read, runs)
    ensures Flatten(runs) == Map(read, pages[..Clip(limit, |pages|)])
  {
    BoundsEnds(limit, workers);
    if limit >= 0 {
      RangesPartition(pages, limit, workers, read, runs, workers);
      assert runs[..workers] == runs;
    } else {
      assert runs[0] == Run(pages, limit, 1, read, 0);
      assert Flatten(runs) == Flatten(runs[..0]) + runs[0];
    }
  }

  datatype Counter = Counter(start: int, shard: Corpus)

  predicate StartsFirst(x: Counter, y: Counter) { x.start <= y.start }

  ghost predicate AreCounters<P>(counters: seq<Counter>, pages: seq<P>, limit: int, workers: int, read: P -> PageRows)
    requires workers >= 1
  {
    forall k | 0 <= k < |counters| ::
      counters[k].start == Bound(k, limit, workers) && counters[k].shard == ShardOf(Run(pages, limit, workers, read, k))
  }

  lemma CountersInOrder<P>(counters: seq<Counter>, pages: seq<P>, limit: int, workers: int, read: P -> PageRows)
    requires workers >= 1 && (limit < 0 ==> |counters| <= 1) && AreCounters(counters, pages, limit, workers, read)
    ensures Sort(counters, StartsFirst) == counters
  {
    hide Bound;
    forall i, j | 0 <= i < j < |counters| ensures StartsFirst(counters[i], counters[j]) {
      BoundsOrdered(i, j, limit, workers);
    }
    SortFixed(counters, StartsFirst);
  }

  // Every worker's shard, with the start of its range.
  method ReadRanges<P>(pages: seq<P>, limit: int, workers: int, read: P -> PageRows) returns (counters: seq<Counter>)
    requires workers >= 1
    ensures |counters| == workers && AreCounters(counters, pages, limit, workers, read)
  {
    hide Bound, ShardOf, Slice;
    counters := [];
    for k := 0 to workers
      invariant |counters| == k && AreCounters(counters, pages, limit, workers, read)
    {
      var shard := ProcessRange(pages, Bound(k, limit, workers), Bound(k + 1, limit, workers), read);
      counters := counters + [Counter(Bound(k, limit, workers), shard)];
    }
  }

  function ShardsOf(counters: seq<Counter>): (shards: seq<Corpus>)
    ensures |shards| == |counters| && forall k | 0 <= k < |shards| :: shards[k] == counters[k].shard
  {
    seq(|counters|, k requires 0 <= k < |counters| => counters[k].shard)
  }

  ghost function RunsOf<P>(pages: seq<P>, limit: int, workers: int, read: P -> PageRows): (runs: seq<seq<PageRows>>)
    requires workers >= 1
    ensures |runs| == workers && AreRuns(pages, limit, workers, read, runs)
  {
    seq(workers, k requires 0 <= k < workers => Run(pages, limit, workers, read, k))
  }

  lemma CountersAreShards<P>(counters: seq<Counter>, pages: seq<P>, limit: int, workers: int, read: P -> PageRows)
    requires workers >= 1 && |counters| == workers && AreCounters(counters, pages, limit, workers, read)
    ensures AreShards(ShardsOf(counters), RunsOf(pages, limit, workers, read))
  {
    hide Bound, Run, ShardOf;
  }

  // Whatever the number of workers, the store is that of one shard over all the pages.
  method IngestParallel<P>(pages: seq<P>, limit: Option<int>, requested: int, read: P -> PageRows)
    returns (store: Corpus)
    ensures store == StoreOf(Map(read, ParallelPages(pages, limit)))
  {
    hide Bound, ShardOf, Slice, Run, StoreOf, AreCounters, AreShards;
    var n := ParallelLimit(pages, limit);
    var fewer := if requested < n then requested else n;
    var workers := if fewer > 1 then fewer else 1;
    var counters := ReadRanges(pages, n, workers, read);
    CountersInOrder(counters, pages, n, workers, read);
    counters := Sort(counters, StartsFirst);
    CountersAreShards(counters, pages, n, workers, read);
    RunsAreAllPages(pages, n, workers, read, RunsOf(pages, n, workers, read));
    store := MergeShards(ShardsOf(counters), RunsOf(pages, n, workers, read));
  }

  // ----- the serial build, page by page

  // The pages a serial build reads: the limit is looked at after a page was read.
  function SerialPages<P>(pages: seq<P>, limit: Option<int>): seq<P> {
    if limit.None? then pages else pages[..Clip(if limit.value < 1 then 1 else limit.value, |pages|)]
  }

  // A page whose document is already stored is skipped.
  function WithPage(store: Corpus, page: PageRows): Corpus {
    if Keyed(store.documents, page.document.key) then store else InsertShard(store, OfPage(page))
  }

  function SerialStore(pages: seq<PageRows>): Corpus {
    if pages == [] then EMPTY else WithPage(SerialStore(pages[..|pages| - 1]), pages[|pages| - 1])
  }

  method IngestSerial<P>(pages: seq<P>, limit: Option<int>, read: P -> PageRows) returns (store: Corpus)
    ensures store == SerialStore(Map(read, SerialPages(pages, limit)))
  {
    hide WithPage;
    store := EMPTY;
    var count := 0;
    while count < |pages|
      invariant count <= |pages| && (count > 0 && limit.Some? ==> count < limit.value)
      invariant store == SerialStore(Map(read, pages[..count]))
    {
      store := WithPage(store, read(pages[count]));
      assert Map(read, pages[..count + 1])[..count] == Map(read, pages[..count]);
      count := count + 1;
      if limit.Some? && count >= limit.value {
        break;
      }
    }
    assert SerialPages(pages, limit) == pages[..count];
  }

  // ----- when the two builds agree

  ghost predicate HasDocument(pages: seq<PageRows>, key: seq<string>) {
    exists k | 0 <= k < |pages| :: pages[k].document.key == key
  }

  ghost predicate DocumentsDistinct(pages: seq<PageRows>) {
    forall i, j | 0 <= i < j < |pages| :: pages[i].document.key != pages[j].document.key
  }

  // The first page of each document, in order.
  ghost function FirstPages(pages: seq<PageRows>): seq<PageRows> {
    if pages == [] then []
    else
      var front, last := FirstPages(pages[..|pages| - 1]), pages[|pages| - 1];
      if HasDocument(front, last.document.key) then front else front + [last]
  }

  lemma {:induction false} InsertedKeys(table: Table, rows: seq<Row>, key: seq<string>)
    ensures Keyed(InsertAll(table, rows), key) <==> Keyed(table, key) || Keyed(rows, key)
  {
    if rows != [] {
      var n := |rows| - 1;
      InsertedKeys(table, rows[..n], key);
      var before := InsertAll(table, rows[..n]);
      RowKeyed(before, rows[n], key);
      RowKeyed(rows[..n], rows[n], key);
      assert rows == rows[..n] + [rows[n]];
    }
  }

  lemma RowKeyed(table: Table, row: Row, key: seq<string>)
    ensures Keyed(table + [row], key) <==> Keyed(table, key) || row.key == key
  {
    var more := table + [row];
    assert more[|table|] == row;
    if k :| 0 <= k < |table| && table[k].key == key {
      assert more[k].key == key;
    }
  }

  lemma {:induction false} ShardDocuments(pages: seq<PageRows>)
    ensures |ShardOf(pages).documents| == |pages| == ShardOf(pages).articles
    ensures forall k | 0 <= k < |pages| :: ShardOf(pages).documents[k] == pages[k].document
  {
    if pages != [] { ShardDocuments(pages[..|pages| - 1]); }
  }

  lemma StoredDocuments(pages: seq<PageRows>, key: seq<string>)
    ensures Keyed(StoreOf(pages).documents, key) <==> HasDocument(pages, key)
    ensures StoreOf(pages).articles == |pages|
  {
    ShardDocuments(pages);
    InsertedKeys([], ShardOf(pages).documents, key);
  }

  // With the same rows, a serial build is a parallel build of the first page of each document.
  lemma {:induction false} SerialIsStoreOfFirst(pages: seq<PageRows>)
    ensures SerialStore(pages) == StoreOf(FirstPages(pages))
  {
    hide InsertShard;
    if pages == [] {
      EmptyShard();
      InsertNothing(EMPTY);
    } else {
      var n := |pages| - 1;
      SerialIsStoreOfFirst(pages[..n]);
      var first := FirstPages(pages[..n]);
      StoredDocuments(first, pages[n].document.key);
      OnePageShard(pages[n]);
      MergeShard(EMPTY, first, [pages[n]]);
    }
  }

  lemma OnePageShard(page: PageRows)
    ensures ShardOf([page]) == OfPage(page)
  {
    EmptyShard();
    assert [page][..0] == [];
  }

  lemma NoPagesDistinct()
    ensures DocumentsDistinct([])
  {
  }

  lemma DistinctStep(front: seq<PageRows>, last: PageRows)
    ensures DocumentsDistinct(front + [last]) <==> DocumentsDistinct(front) && !HasDocument(front, last.document.key)
  {
    var pages := front + [last];
    assert pages[|front|] == last;
    assert forall k | 0 <= k < |front| :: pages[k] == front[k];
    if DocumentsDistinct(pages) {
      forall i, j | 0 <= i < j < |front| ensures front[i].document.key != front[j].document.key {
        assert pages[i].document.key != pages[j].document.key;
      }
      forall k | 0 <= k < |front| ensures front[k].document.key != last.document.key {
        assert pages[k].document.key != pages[|front|].document.key;
      }
    }
  }

  lemma {:induction false} FirstPagesKeepDistinct(pages: seq<PageRows>)
    ensures |FirstPages(pages)| <= |pages|
    ensures DocumentsDistinct(pages) ==> FirstPages(pages) == pages
    ensures |FirstPages(pages)| == |pages| ==> DocumentsDistinct(pages) && FirstPages(pages) == pages
  {
    hide DocumentsDistinct, HasDocument;
    if pages == [] {
      NoPagesDistinct();
    } else {
      var n := |pages| - 1;
      FirstPagesKeepDistinct(pages[..n]);
      DistinctStep(pages[..n], pages[n]);
      assert pages == pages[..n] + [pages[n]];
    }
  }

  // ----- semantic keys

  // A page is parsed with the joined words of a chunk in the digested cell; a build puts their digest there.
  function DigestRow(row: Row, digest: string -> string): Row { row.(digested := digest(row.digested)) }

  ghost function DigestRows(rows: seq<Row>, digest: string -> string): seq<Row> {
    Map((row: Row) => DigestRow(row, digest), rows)
  }

  ghost function DigestPage(page: PageRows, digest: string -> string): PageRows {
    page.(chunks := DigestRows(page.chunks, digest))
  }

  ghost function DigestPages(pages: seq<PageRows>, digest: string -> string): seq<PageRows> {
    Map((page: PageRows) => DigestPage(page, digest), pages)
  }

  ghost function DigestStore(store: Corpus, digest: string -> string): Corpus {
    store.(chunks := DigestRows(store.chunks, digest))
  }

  // A store without the semantic keys of its chunks.
  ghost function WithoutKeys(store: Corpus): Corpus { DigestStore(store, words => "") }

  lemma DigestTwice(rows: seq<Row>, first: string -> string, second: string -> string)
    ensures (forall words: string :: second(first(words)) == second(words)) ==>
      DigestRows(DigestRows(rows, first), second) == DigestRows(rows, second)
  {
    if forall words: string :: second(first(words)) == second(words) {
      assert DigestRows(DigestRows(rows, first), second) == DigestRows(rows, second);
    }
  }

  lemma KeysForgotten(store: Corpus, digest: string -> string)
    ensures WithoutKeys(DigestStore(store, digest)) == WithoutKeys(store)
  {
    DigestTwice(store.chunks, digest, words => "");
  }

  lemma DigestRowsStep(rows: seq<Row>, digest: string -> string)
    requires rows != []
    ensures var n := |rows| - 1;
      && DigestRows(rows, digest)[..n] == DigestRows(rows[..n], digest)
      && DigestRows(rows, digest)[n] == DigestRow(rows[n], digest)
  {
  }

  lemma DigestRowsConcat(a: seq<Row>, b: seq<Row>, digest: string -> string)
    ensures DigestRows(a + b, digest) == DigestRows(a, digest) + DigestRows(b, digest)
  {
  }

  lemma DigestKeepsKeyed(table: Table, key: seq<string>, digest: string -> string)
    ensures Keyed(DigestRows(table, digest), key) <==> Keyed(table, key)
  {
    var digested := DigestRows(table, digest);
    forall k | 0 <= k < |table| ensures digested[k].key == table[k].key {
    }
  }

  lemma {:induction false} InsertDigested(table: Table, rows: seq<Row>, digest: string -> string)
    ensures InsertAll(DigestRows(table, digest), DigestRows(rows, digest)) == DigestRows(InsertAll(table, rows), digest)
  {
    hide Keyed, DigestRows;
    if rows == [] {
      NoRowsDigested(digest);
    } else {
      var n := |rows| - 1;
      var before := InsertAll(table, rows[..n]);
      InsertDigested(table, rows[..n], digest);
      SameLengthDigested(rows, digest);
      DigestRowsStep(rows, digest);
      DigestKeepsKeyed(before, rows[n].key, digest);
      DigestRowsConcat(before, [rows[n]], digest);
      OneRowDigested(rows[n], digest);
    }
  }

  lemma NoRowsDigested(digest: string -> string)
    ensures DigestRows([], digest) == []
  {
  }

  lemma OneRowDigested(row: Row, digest: string -> string)
    ensures DigestRows([row], digest) == [DigestRow(row, digest)]
  {
  }

  lemma DigestPagesStep(pages: seq<PageRows>, digest: string -> string)
    requires pages != []
    ensures var n := |pages| - 1;
      && |DigestPages(pages, digest)| == |pages|
      && DigestPages(pages, digest)[..n] == DigestPages(pages[..n], digest)
      && DigestPages(pages, digest)[n] == DigestPage(pages[n], digest)
  {
  }

  lemma {:induction false} ShardDigested(pages: seq<PageRows>, digest: string -> string)
    ensures ShardOf(DigestPages(pages, digest)) == DigestStore(ShardOf(pages), digest)
  {
    hide DigestRows, DigestPages;
    NoRowsDigested(digest);
    if pages == [] {
      NoPagesDigested(digest);
    } else {
      var n := |pages| - 1;
      ShardDigested(pages[..n], digest);
      DigestPagesStep(pages, digest);
      DigestRowsConcat(ShardOf(pages[..n]).chunks, pages[n].chunks, digest);
      SameLengthDigested(pages[n].chunks, digest);
    }
  }

  lemma NoPagesDigested(digest: string -> string)
    ensures DigestPages([], digest) == []
  {
  }

  lemma SameLengthDigested(rows: seq<Row>, digest: string -> string)
    ensures |DigestRows(rows, digest)| == |rows|
  {
  }

  lemma StoreDigested(pages: seq<PageRows>, digest: string -> string)
    ensures StoreOf(DigestPages(pages, digest)) == DigestStore(StoreOf(pages), digest)
  {
    hide DigestRows, DigestPages, InsertAll, ShardOf;
    ShardDigested(pages, digest);
    NoRowsDigested(digest);
    InsertDigested([], ShardOf(pages).chunks, digest);
  }

  lemma {:induction false} FirstPagesDigested(pages: seq<PageRows>, digest: string -> string)
    ensures FirstPages(DigestPages(pages, digest)) == DigestPages(FirstPages(pages), digest)
  {
    hide DigestPages, HasDocument;
    if pages == [] {
      NoPagesDigested(digest);
    } else {
      var n := |pages| - 1;
      FirstPagesDigested(pages[..n], digest);
      DigestPagesStep(pages, digest);
      var front := FirstPages(pages[..n]);
      DigestKeepsDocuments(front, pages[n].document.key, digest);
      if !HasDocument(front, pages[n].document.key) {
        DigestPagesStep(front + [pages[n]], digest);
        assert (front + [pages[n]])[..|front|] == front;
        var more := DigestPages(front + [pages[n]], digest);
        assert more == more[..|front|] + [more[|front|]];
      }
    }
  }

  lemma DigestKeepsDocuments(pages: seq<PageRows>, key: seq<string>, digest: string -> string)
    ensures HasDocument(DigestPages(pages, digest), key) <==> HasDocument(pages, key)
  {
    var digested := DigestPages(pages, digest);
    forall k | 0 <= k < |pages| ensures digested[k].document == pages[k].document {
    }
  }

  // No earlier row has the key: the row that a table keeps.
  ghost predicate IsFirst(rows: seq<Row>, k: nat)
    requires k < |rows|
  {
    !Keyed(rows[..k], rows[k].key)
  }

  // Two digests agree on the words of every chunk that the table keeps.
  ghost predicate DigestsAgree(rows: seq<Row>, d: string -> string, e: string -> string) {
    forall k: nat | k < |rows| && IsFirst(rows, k) :: d(rows[k].digested) == e(rows[k].digested)
  }

  lemma DigestsAgreeStep(front: seq<Row>, row: Row, d: string -> string, e: string -> string)
    ensures DigestsAgree(front + [row], d, e) <==>
      DigestsAgree(front, d, e) && (Keyed(front, row.key) || d(row.digested) == e(row.digested))
  {
    hide Keyed;
    var rows := front + [row];
    assert rows[..|front|] == front && rows[|front|] == row;
    forall k: nat | k < |front| ensures rows[k] == front[k] && (IsFirst(rows, k) <==> IsFirst(front, k)) {
      assert rows[..k] == front[..k];
    }
    assert IsFirst(rows, |front|) <==> !Keyed(front, row.key);
    if DigestsAgree(rows, d, e) {
      forall k: nat | k < |front| && IsFirst(front, k) ensures d(front[k].digested) == e(front[k].digested) {
        assert IsFirst(rows, k);
      }
    }
  }

  lemma NoRowsAgree(d: string -> string, e: string -> string)
    ensures DigestsAgree([], d, e)
  {
  }

  // The kept rows have the same digests exactly when the digests agree on the first row of every key.
  lemma {:induction false} KeptDigestsAgreeIff(rows: seq<Row>, d: string -> string, e: string -> string)
    ensures DigestRows(InsertAll([], rows), d) == DigestRows(InsertAll([], rows), e) <==> DigestsAgree(rows, d, e)
  {
    hide Keyed, DigestRows, DigestsAgree;
    if rows == [] {
      NoRowsDigested(d);
      NoRowsDigested(e);
      NoRowsAgree(d, e);
    } else {
      var n := |rows| - 1;
      var kept := InsertAll([], rows[..n]);
      KeptDigestsAgreeIff(rows[..n], d, e);
      assert rows == rows[..n] + [rows[n]];
      DigestsAgreeStep(rows[..n], rows[n], d, e);
      InsertedKeys([], rows[..n], rows[n].key);
      NothingKeyed(rows[n].key);
      ExtendedDigests(kept, rows[n], d, e);
    }
  }

  lemma NothingKeyed(key: seq<string>)
    ensures !Keyed([], key)
  {
  }

  lemma ExtendedDigests(kept: seq<Row>, row: Row, d: string -> string, e: string -> string)
    ensures DigestRows(kept + [row], d) == DigestRows(kept + [row], e) <==>
      DigestRows(kept, d) == DigestRows(kept, e) && d(row.digested) == e(row.digested)
  {
    hide DigestRows;
    DigestRowsConcat(kept, [row], d);
    DigestRowsConcat(kept, [row], e);
    OneRowDigested(row, d);
    OneRowDigested(row, e);
    SameLengthDigested(kept, d);
    SameLengthDigested(kept, e);
    LastOf(DigestRows(kept, d), DigestRow(row, d), DigestRows(kept, e), DigestRow(row, e));
  }

  lemma LastOf<T>(a: seq<T>, x: T, b: seq<T>, y: T)
    requires |a| == |b|
    ensures a + [x] == b + [y] <==> a == b && x == y
  {
    if a + [x] == b + [y] {
      assert a == (a + [x])[..|a|] && x == (a + [x])[|a|];
      assert b == (b + [y])[..|b|] && y == (b + [y])[|b|];
    }
  }

  // ----- the two builds, each with its own digest

  ghost predicate SameStoredDigests(pages: seq<PageRows>, d: string -> string, e: string -> string) {
    DigestsAgree(ShardOf(pages).chunks, d, e)
  }

  lemma StoredDigestsAgreeIff(pages: seq<PageRows>, d: string -> string, e: string -> string)
    ensures DigestStore(StoreOf(pages), d) == DigestStore(StoreOf(pages), e) <==> SameStoredDigests(pages, d, e)
  {
    hide DigestRows, InsertAll, ShardOf, DigestsAgree;
    KeptDigestsAgreeIff(ShardOf(pages).chunks, d, e);
    assert StoreOf(pages).chunks == InsertAll([], ShardOf(pages).chunks);
  }

  lemma SerialDigested(pages: seq<PageRows>, digest: string -> string)
    ensures SerialStore(DigestPages(pages, digest)) == DigestStore(StoreOf(FirstPages(pages)), digest)
  {
    hide DigestPages, DigestStore, StoreOf, SerialStore, FirstPages;
    SerialIsStoreOfFirst(DigestPages(pages, digest));
    FirstPagesDigested(pages, digest);
    StoreDigested(FirstPages(pages), digest);
  }

  // A serial build is a parallel build of the first page of each document, up to the semantic keys, and with
  // them exactly when the two digests agree on the words of every stored chunk.
  lemma SerialIsParallelOfFirst(pages: seq<PageRows>, serial: string -> string, parallel: string -> string)
    ensures var first := FirstPages(pages);
      var slow, fast := SerialStore(DigestPages(pages, serial)), StoreOf(DigestPages(first, parallel));
      && WithoutKeys(slow) == WithoutKeys(fast)
      && (slow == fast <==> SameStoredDigests(first, serial, parallel))
  {
    hide DigestPages, DigestStore, StoreOf, SerialStore, FirstPages, WithoutKeys, SameStoredDigests;
    var first := FirstPages(pages);
    SerialDigested(pages, serial);
    StoreDigested(first, parallel);
    KeysForgotten(StoreOf(first), serial);
    KeysForgotten(StoreOf(first), parallel);
    StoredDigestsAgreeIff(first, serial, parallel);
  }

  lemma KeysKeepArticles(store: Corpus)
    ensures WithoutKeys(store).articles == store.articles
  {
  }

  lemma BuiltArticles(pages: seq<PageRows>, digest: string -> string)
    ensures StoreOf(DigestPages(pages, digest)).articles == |pages|
  {
    hide StoreOf;
    StoredDocuments(DigestPages(pages, digest), []);
  }

  // On the same pages, the two builds differ at most in the semantic keys exactly when no document is repeated.
  lemma SerialEqualsParallelIff(pages: seq<PageRows>, serial: string -> string, parallel: string -> string)
    ensures var slow, fast := SerialStore(DigestPages(pages, serial)), StoreOf(DigestPages(pages, parallel));
      && (WithoutKeys(slow) == WithoutKeys(fast) <==> DocumentsDistinct(pages))
      && (slow == fast <==> DocumentsDistinct(pages) && SameStoredDigests(pages, serial, parallel))
  {
    hide DigestPages, DigestStore, StoreOf, SerialStore, FirstPages, WithoutKeys, SameStoredDigests, DocumentsDistinct;
    var first := FirstPages(pages);
    SerialIsParallelOfFirst(pages, serial, parallel);
    FirstPagesKeepDistinct(pages);
    BuiltArticles(pages, parallel);
    BuiltArticles(first, parallel);
    KeysKeepArticles(StoreOf(DigestPages(pages, parallel)));
    KeysKeepArticles(StoreOf(DigestPages(first, parallel)));
  }

  // How a build reads a page: it parses it and digests the words of its chunks.
  ghost function Reader<P>(parse: P -> PageRows, digest: string -> string): P -> PageRows {
    page => DigestPage(parse(page), digest)
  }

  lemma ReadPages<P>(parse: P -> PageRows, digest: string -> string, pages: seq<P>)
    ensures Map(Reader(parse, digest), pages) == DigestPages(Map(parse, pages), digest)
  {
    hide DigestPage;
  }

  ghost function SerialBuild<P>(pages: seq<P>, limit: Option<int>, read: P -> PageRows): Corpus {
    SerialStore(Map(read, SerialPages(pages, limit)))
  }

  ghost function ParallelBuild<P>(pages: seq<P>, limit: Option<int>, read: P -> PageRows): Corpus {
    StoreOf(Map(read, ParallelPages(pages, limit)))
  }

  // The two builds read the same pages, and no document is repeated among them.
  ghost predicate BuildsMatch<P>(pages: seq<P>, limit: Option<int>, parse: P -> PageRows) {
    && (pages == [] || limit.None? || limit.value >= 1)
    && DocumentsDistinct(Map(parse, ParallelPages(pages, limit)))
  }

  // A parallel build of a dump with any number of workers gives the serial store, up to the semantic keys, exactly
  // when it reads the same pages and no document is repeated among them; the whole stores are equal exactly when,
  // in addition, the two digests agree on the words of every stored chunk.
  lemma ParallelRefinesSerialIff<P>(pages: seq<P>, limit: Option<int>, parse: P -> PageRows,
                                    serial: string -> string, parallel: string -> string)
    ensures
      var slow := SerialBuild(pages, limit, Reader(parse, serial));
      var fast := ParallelBuild(pages, limit, Reader(parse, parallel));
      && (WithoutKeys(slow) == WithoutKeys(fast) <==> BuildsMatch(pages, limit, parse))
      && (slow == fast <==>
          && BuildsMatch(pages, limit, parse)
          && SameStoredDigests(Map(parse, ParallelPages(pages, limit)), serial, parallel))
  {
    hide DigestPages, StoreOf, SerialStore, WithoutKeys, SameStoredDigests, DocumentsDistinct, Reader, ParallelPages,
         SerialPages;
    var one, all := Map(parse, SerialPages(pages, limit)), Map(parse, ParallelPages(pages, limit));
    ReadPages(parse, serial, SerialPages(pages, limit));
    ReadPages(parse, parallel, ParallelPages(pages, limit));
    PagesRead(pages, limit);
    if pages == [] || limit.None? || limit.value >= 1 {
      SerialEqualsParallelIff(all, serial, parallel);
    } else {
      SerialIsParallelOfFirst(one, serial, parallel);
      OneIsFirst(one);
      BuiltArticles(one, parallel);
      BuiltArticles(all, parallel);
      KeysKeepArticles(StoreOf(DigestPages(one, parallel)));
      KeysKeepArticles(StoreOf(DigestPages(all, parallel)));
    }
  }

  lemma PagesRead<P>(pages: seq<P>, limit: Option<int>)
    ensures pages == [] || limit.None? || limit.value >= 1 ==> SerialPages(pages, limit) == ParallelPages(pages, limit)
    ensures pages != [] && limit.Some? && limit.value < 1 ==>
      |SerialPages(pages, limit)| == 1 && |ParallelPages(pages, limit)| == 0
  {
  }

  lemma OneIsFirst(pages: seq<PageRows>)
    requires |pages| == 1
    ensures FirstPages(pages) == pages
  {
    assert pages[..0] == [];
    assert pages == [pages[0]];
  }

  // Digests without a common value make the stores equal only where no chunk is read.
  lemma DigestsApart<P>(pages: seq<P>, limit: Option<int>, parse: P -> PageRows,
                        serial: string -> string, parallel: string -> string)
    requires forall words: string :: serial(words) != parallel(words)
    ensures
      var slow := SerialBuild(pages, limit, Reader(parse, serial));
      var fast := ParallelBuild(pages, limit, Reader(parse, parallel));
      slow == fast <==>
        && BuildsMatch(pages, limit, parse)
        && forall k | 0 <= k < |ParallelPages(pages, limit)| :: parse(ParallelPages(pages, limit)[k]).chunks == []
  {
    hide SerialBuild, ParallelBuild, BuildsMatch, Reader, ParallelPages, ShardOf;
    var all := Map(parse, ParallelPages(pages, limit));
    ParallelRefinesSerialIff(pages, limit, parse, serial, parallel);
    ChunksOfPages(all);
    var rows := ShardOf(all).chunks;
    if rows != [] {
      assert !Keyed(rows[..0], rows[0].key);
      assert IsFirst(rows, 0);
    }
  }

  lemma {:induction false} ChunksOfPages(pages: seq<PageRows>)
    ensures ShardOf(pages).chunks == [] <==> forall k | 0 <= k < |pages| :: pages[k].chunks == []
  {
    if pages != [] {
      var n := |pages| - 1;
      ChunksOfPages(pages[..n]);
      assert pages == pages[..n] + [pages[n]];
    }
  }

  const ANT_CHUNK := Row(["chunk:1"], ["mw:1:1:a", "Lead", "0", "0", "3", "Ant", "Ant", "a", "Ant"], "ant")

  const ANT_PAGE := PageRows(Row(["mw:1:1:a"], ["Ant"], ""), Row(["ant", "mw:1:1:a"], [], ""), [], [ANT_CHUNK],
                             [Row(["chunk:1"], ["Ant", "Lead", "Ant"], "")], [], [], [], {})

  function AsParsed(page: PageRows): PageRows { page }

  // A dump of one page with one chunk: the builds agree up to the semantic key, and differ in it whenever the
  // digests differ on its word.
  lemma OneChunkTellsDigestsApart(serial: string -> string, parallel: string -> string)
    ensures
      var slow := SerialBuild([ANT_PAGE], None, Reader(AsParsed, serial));
      var fast := ParallelBuild([ANT_PAGE], None, Reader(AsParsed, parallel));
      && WithoutKeys(slow) == WithoutKeys(fast)
      && (slow == fast <==> serial("ant") == parallel("ant"))
  {
    hide SerialBuild, ParallelBuild, Reader, ShardOf;
    ParallelRefinesSerialIff([ANT_PAGE], None, AsParsed, serial, parallel);
    assert ParallelPages([ANT_PAGE], None) == [ANT_PAGE];
    assert Map(AsParsed, [ANT_PAGE]) == [ANT_PAGE];
    OnePageShard(ANT_PAGE);
    var rows := ShardOf([ANT_PAGE]).chunks;
    assert rows == [ANT_CHUNK];
    assert !Keyed(rows[..0], rows[0].key);
    assert IsFirst(rows, 0);
  }

  // One page that is twice in a dump is counted once by the serial build and twice by the parallel one.
  lemma RepeatedPage(page: PageRows)
    ensures SerialStore([page, page]).articles == 1 && StoreOf([page, page]).articles == 2
    ensures |page.fts| > 0 ==> |StoreOf([page, page]).fts| > |SerialStore([page, page]).fts|
  {
    var twice := [page, page];
    SerialIsStoreOfFirst(twice);
    assert twice[..1] == [page] && [page][..0] == [];
    assert HasDocument([page], page.document.key) by { assert [page][0] == page; }
    assert FirstPages([page]) == [page];
    assert FirstPages(twice) == [page];
    StoredDocuments(twice, []);
    StoredDocuments([page], []);
    OnePageShard(page);
    assert ShardOf(twice) == Combine(OfPage(page), OfPage(page));
  }
}
