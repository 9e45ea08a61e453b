// Cutting the sections of a page into blocks of bounded length.
module SectionBlocks {

  datatype Span = Span(start: nat, end: nat)

  // A block as the loop cuts it; an end below zero counts from the end of the page.
  datatype Block = Block(start: nat, end: int)

  // Where a slice of a text of length n ends.
  function SliceEnd(n: nat, end: int): (e: nat)
    ensures e <= n
  {
    if end >= n then n else if end >= 0 then end else if n + end >= 0 then n + end else 0
  }

  function Slice(raw: string, b: Block): string {
    var end := SliceEnd(|raw|, b.end);
    if b.start <= end then raw[b.start..end] else []
  }

  // The last newline of a stretch, or -1.
  function LastNewline(raw: string, from: nat, to: nat): (found: int)
    requires to <= |raw|
    ensures found == -1 || (from <= found < to && raw[found] == '\n')
    ensures forall p | from <= p < to && p > found :: raw[p] != '\n'
  {
    if to <= from then -1 else if raw[to - 1] == '\n' then to - 1 else LastNewline(raw, from, to - 1)
  }

  ghost predicate NoNewline(raw: string, from: int, to: int) {
    forall p | 0 <= p < |raw| && from < p < to :: raw[p] != '\n'
  }

  // A block that another one follows: cut at the last newline in the second half of its window,
  // or a whole window when there is none.
  ghost predicate IsInnerBlock(raw: string, b: Block, chunk: int) {
    var half, full := b.start + chunk / 2, b.start + chunk;
    && b.start < b.end <= full && half < b.end <= |raw|
    && (b.end == full || (b.end < |raw| && raw[b.end] == '\n'))
    && NoNewline(raw, if b.end == full then half else b.end, full)
  }

  ghost predicate IsLastBlock(b: Block, chunk: int, to: nat) { b.start < b.end == to <= b.start + chunk }

  ghost predicate IsCut(raw: string, from: nat, to: nat, chunk: int, blocks: seq<Block>) {
    if from >= to then blocks == []
    else
      && blocks != [] && blocks[0].start == from
      && (forall k | 0 <= k < |blocks| - 1 :: IsInnerBlock(raw, blocks[k], chunk) && blocks[k].end < to)
      && (forall k | 0 < k < |blocks| :: blocks[k].start == blocks[k - 1].end)
      && IsLastBlock(blocks[|blocks| - 1], chunk, to)
  }

  // The characters the blocks hold, in order.
  ghost function Text(raw: string, blocks: seq<Block>): string {
    if blocks == [] then []
    else
      Text(raw, blocks[..|blocks| - 1]) + Slice(raw, blocks[|blocks| - 1])
  }

  // The inner blocks cut so far reach from `from` to `cursor`.
  ghost predicate CutSoFar(raw: string, from: nat, cursor: nat, to: nat, chunk: int, blocks: seq<Block>) {
    && from <= cursor < to
    && (blocks == [] ==> cursor == from)
    && (blocks != [] ==> blocks[0].start == from && blocks[|blocks| - 1].end == cursor)
    && (forall k | 0 <= k < |blocks| :: IsInnerBlock(raw, blocks[k], chunk) && blocks[k].end < to)
    && (forall k | 0 < k < |blocks| :: blocks[k].start == blocks[k - 1].end)
  }

  ghost predicate AllEmpty(raw: string, blocks: seq<Block>) {
    forall k | 0 <= k < |blocks| :: Slice(raw, blocks[k]) == []
  }

  // The end of the block that starts at `cursor`. A length below zero reaches back: behind the start of the page the
  // search and the slice count from its end, and the result of a failed search may itself become the end.
  function BlockEnd(raw: string, cursor: nat, to: nat, chunk: int): (rawEnd: int)
    requires cursor < to <= |raw|
    ensures chunk > 0 ==>
      var b := Block(cursor, rawEnd);
      if rawEnd < to then IsInnerBlock(raw, b, chunk) else IsLastBlock(b, chunk, to)
    ensures chunk <= 0 <= cursor + chunk ==> rawEnd == cursor + chunk
    ensures cursor + chunk < 0 ==>
      var split := LastNewline(raw, cursor, SliceEnd(|raw|, cursor + chunk));
      rawEnd == if split >= 0 then split else if cursor + chunk / 2 < -1 then -1 else cursor + chunk
  {
    var full := if to < cursor + chunk then to else cursor + chunk;
    if full < to then
      var split := LastNewline(raw, cursor, SliceEnd(|raw|, full));
      if split > cursor + chunk / 2 then split else full
    else full
  }

  // The blocks from `cursor` on.
  ghost function Blocks(raw: string, cursor: nat, to: nat, chunk: int): seq<Block>
    requires to <= |raw|
    decreases if cursor < to then to - cursor else 0
  {
    if cursor >= to then []
    else
      var rawEnd := BlockEnd(raw, cursor, to, chunk);
      [Block(cursor, rawEnd)] + Blocks(raw, if rawEnd > cursor + 1 then rawEnd else cursor + 1, to, chunk)
  }

  // Where the loop stands: more to cut, or done.
  ghost predicate Cutting(raw: string, from: nat, cursor: nat, to: nat, chunk: int, blocks: seq<Block>) {
    if cursor < to then CutSoFar(raw, from, cursor, to, chunk, blocks) else IsCut(raw, from, to, chunk, blocks)
  }

  lemma CutStep(raw: string, from: nat, cursor: nat, to: nat, chunk: int, blocks: seq<Block>, b: Block)
    requires Cutting(raw, from, cursor, to, chunk, blocks) && cursor < to && b.start == cursor < b.end
    requires if b.end < to then IsInnerBlock(raw, b, chunk) else IsLastBlock(b, chunk, to)
    ensures Cutting(raw, from, b.end, to, chunk, blocks + [b])
  {
    hide IsInnerBlock;
    var more := blocks + [b];
    if b.end < to {
      forall k | 0 <= k < |more| ensures IsInnerBlock(raw, more[k], chunk) && more[k].end < to {
      }
    } else {
      forall k | 0 <= k < |more| - 1 ensures IsInnerBlock(raw, more[k], chunk) && more[k].end < to {
        assert more[k] == blocks[k];
      }
    }
  }

  // The block loop of one section.
  method CutSection(raw: string, from: nat, to: nat, chunk: int) returns (blocks: seq<Block>)
    requires to <= |raw|
    ensures blocks == Blocks(raw, from, to, chunk)
    ensures chunk > 0 ==> IsCut(raw, from, to, chunk, blocks)
    ensures chunk <= 0 <= from + chunk ==> AllEmpty(raw, blocks)
  {
    hide BlockEnd, Slice, Blocks, AllEmpty, Cutting;
    blocks := [];
    var cursor := from;
    StartOfCut(raw, from, to, chunk);
    while cursor < to
      invariant from <= cursor && Blocks(raw, from, to, chunk) == blocks + Blocks(raw, cursor, to, chunk)
      invariant chunk > 0 ==> Cutting(raw, from, cursor, to, chunk, blocks)
      invariant chunk <= 0 <= from + chunk ==> AllEmpty(raw, blocks)
    {
      var rawEnd := BlockEnd(raw, cursor, to, chunk);
      if chunk > 0 {
        BlockAdvances(raw, Block(cursor, rawEnd), chunk, to);
        CutStep(raw, from, cursor, to, chunk, blocks, Block(cursor, rawEnd));
      } else if from + chunk >= 0 {
        BackwardIsEmpty(raw, blocks, Block(cursor, rawEnd));
      }
      NextBlock(raw, cursor, to, chunk, blocks);
      blocks := blocks + [Block(cursor, rawEnd)];
      cursor := if rawEnd > cursor + 1 then rawEnd else cursor + 1;
    }
    CutIsDone(raw, from, cursor, to, chunk, blocks);
  }

  lemma CutIsDone(raw: string, from: nat, cursor: nat, to: nat, chunk: int, blocks: seq<Block>)
    requires cursor >= to && to <= |raw|
    ensures blocks + Blocks(raw, cursor, to, chunk) == blocks
    ensures Cutting(raw, from, cursor, to, chunk, blocks) ==> IsCut(raw, from, to, chunk, blocks)
  {
  }

  lemma StartOfCut(raw: string, from: nat, to: nat, chunk: int)
    requires to <= |raw|
    ensures Cutting(raw, from, from, to, chunk, []) && AllEmpty(raw, [])
    ensures Blocks(raw, from, to, chunk) == [] + Blocks(raw, from, to, chunk)
  {
  }

  lemma NextBlock(raw: string, cursor: nat, to: nat, chunk: int, blocks: seq<Block>)
    requires cursor < to <= |raw|
    ensures var rawEnd := BlockEnd(raw, cursor, to, chunk);
      var next := if rawEnd > cursor + 1 then rawEnd else cursor + 1;
      blocks + Blocks(raw, cursor, to, chunk) == blocks + [Block(cursor, rawEnd)] + Blocks(raw, next, to, chunk)
  {
    hide BlockEnd;
  }

  lemma BackwardIsEmpty(raw: string, blocks: seq<Block>, b: Block)
    requires AllEmpty(raw, blocks) && 0 <= b.end <= b.start
    ensures AllEmpty(raw, blocks + [b])
  {
  }

  lemma BlockAdvances(raw: string, b: Block, chunk: int, to: nat)
    requires if b.end < to then IsInnerBlock(raw, b, chunk) else IsLastBlock(b, chunk, to)
    ensures b.start < b.end
  {
  }

  // ----- the blocks tile the section

  lemma TextLast(raw: string, blocks: seq<Block>, m: nat)
    requires m < |blocks|
    ensures Text(raw, blocks[..m + 1]) == Text(raw, blocks[..m]) + Slice(raw, blocks[m])
  {
    hide Slice;
    assert blocks[..m + 1][..m] == blocks[..m];
  }

  lemma SlicesJoin(raw: string, from: nat, mid: nat, to: nat)
    requires from <= mid <= to <= |raw|
    ensures raw[from..mid] + raw[mid..to] == raw[from..to]
  {
  }

  lemma {:induction false} ChainText(raw: string, from: nat, blocks: seq<Block>, n: nat)
    requires n <= |blocks| && from <= |raw|
    requires forall k | 0 <= k < n :: blocks[k].start < blocks[k].end <= |raw|
    requires n > 0 ==> blocks[0].start == from
    requires forall k | 0 < k < n :: blocks[k].start == blocks[k - 1].end
    ensures n > 0 ==> from <= blocks[n - 1].end
    ensures Text(raw, blocks[..n]) == raw[from..if n == 0 then from else blocks[n - 1].end]
  {
    hide Text, Slice;
    if n == 0 {
      NoText(raw);
    } else {
      var m := n - 1;
      ChainText(raw, from, blocks, m);
      TextLast(raw, blocks, m);
      SliceWithin(raw, blocks[m]);
      SlicesJoin(raw, from, blocks[m].start, blocks[m].end);
    }
  }

  lemma NoText(raw: string)
    ensures Text(raw, []) == []
  {
  }

  lemma SliceWithin(raw: string, b: Block)
    requires b.start <= b.end <= |raw|
    ensures Slice(raw, b) == raw[b.start..b.end]
  {
  }

  lemma CutText(raw: string, from: nat, to: nat, chunk: int, blocks: seq<Block>)
    requires from <= to <= |raw| && IsCut(raw, from, to, chunk, blocks)
    ensures Text(raw, blocks) == raw[from..to]
  {
    hide Slice;
    if from < to {
      forall k | 0 <= k < |blocks| ensures blocks[k].start < blocks[k].end <= |raw| {
        assert k < |blocks| - 1 ==> IsInnerBlock(raw, blocks[k], chunk);
      }
      ChainText(raw, from, blocks, |blocks|);
      assert blocks[..|blocks|] == blocks;
    }
  }

  lemma {:induction false} EmptyBlocksHoldNothing(raw: string, blocks: seq<Block>)
    requires AllEmpty(raw, blocks)
    ensures Text(raw, blocks) == []
  {
    if blocks != [] { EmptyBlocksHoldNothing(raw, blocks[..|blocks| - 1]); }
  }

  // A section is kept when the block length is positive or there is nothing to keep. A block length that is not
  // positive, and does not reach behind the start of the page, leaves only empty blocks.
  method SectionIsTiled(raw: string, from: nat, to: nat, chunk: int) returns (blocks: seq<Block>)
    requires from <= to <= |raw|
    ensures blocks == Blocks(raw, from, to, chunk)
    ensures chunk >= 1 || from == to ==> Text(raw, blocks) == raw[from..to]
    ensures from + chunk >= 0 ==> (Text(raw, blocks) == raw[from..to] <==> chunk >= 1 || from == to)
  {
    blocks := CutSection(raw, from, to, chunk);
    if chunk > 0 {
      CutText(raw, from, to, chunk, blocks);
    } else if from + chunk >= 0 {
      EmptyBlocksHoldNothing(raw, blocks);
      assert |raw[from..to]| == to - from;
    }
  }

  // Behind the start of the page it depends on the text: of two pages of four characters, cut at length -2, one is
  // kept and the other is not.
  lemma NegativeLength(raw: string)
    requires |raw| == 4 && forall p | 0 <= p < 4 :: raw[p] != '\n'
    ensures Text(raw, Blocks(raw, 0, 4, -2)) == raw[0..2] + raw[1..3]
    ensures Text(raw, Blocks(raw, 0, 4, -2)) == raw <==> raw[1] == raw[2] == raw[3]
  {
    hide *;
    BlocksOfFour(raw);
    TextOfFour(raw);
    FourAgain(raw, raw[0..2] + raw[1..3]);
  }

  lemma FourAgain(raw: string, text: string)
    requires |raw| == 4 && text == raw[0..2] + raw[1..3]
    ensures text == raw <==> raw[1] == raw[2] == raw[3]
  {
    assert |text| == 4 && text[0] == raw[0] && text[1] == raw[1] && text[2] == raw[1] && text[3] == raw[2];
  }

  const FOUR_BLOCKS: seq<Block> := [Block(0, -2), Block(1, -1), Block(2, 0), Block(3, 1)]

  lemma BlocksOfFour(raw: string)
    requires |raw| == 4 && forall p | 0 <= p < 4 :: raw[p] != '\n'
    ensures Blocks(raw, 0, 4, -2) == FOUR_BLOCKS
  {
    hide BlockEnd;
    FourEnds(raw);
    assert Blocks(raw, 4, 4, -2) == [];
    assert Blocks(raw, 3, 4, -2) == [Block(3, 1)];
    assert Blocks(raw, 2, 4, -2) == [Block(2, 0), Block(3, 1)];
    assert Blocks(raw, 1, 4, -2) == [Block(1, -1), Block(2, 0), Block(3, 1)];
  }

  lemma FourEnds(raw: string)
    requires |raw| == 4 && forall p | 0 <= p < 4 :: raw[p] != '\n'
    ensures forall cursor: nat | cursor < 4 :: BlockEnd(raw, cursor, 4, -2) == cursor - 2
  {
    hide BlockEnd, LastNewline;
  }

  lemma TextOfFour(raw: string)
    requires |raw| == 4
    ensures Text(raw, FOUR_BLOCKS) == raw[0..2] + raw[1..3]
  {
    hide Text, Slice;
    var blocks := FOUR_BLOCKS;
    FourSlices(raw);
    NoText(raw);
    TextLast(raw, blocks, 0);
    TextLast(raw, blocks, 1);
    TextLast(raw, blocks, 2);
    TextLast(raw, blocks, 3);
    assert blocks[..0] == [] && blocks[..4] == blocks;
  }

  lemma FourSlices(raw: string)
    requires |raw| == 4
    ensures Slice(raw, FOUR_BLOCKS[0]) == raw[0..2] && Slice(raw, FOUR_BLOCKS[1]) == raw[1..3]
    ensures Slice(raw, FOUR_BLOCKS[2]) == [] && Slice(raw, FOUR_BLOCKS[3]) == []
  {
  }

  // ----- how many blocks

  lemma {:induction false} InnerBlocksAdvance(from: nat, chunk: int, step: nat, blocks: seq<Block>, n: nat)
    requires n <= |blocks|
    requires forall k | 0 <= k < n :: step <= blocks[k].end - blocks[k].start <= chunk
    requires n > 0 ==> blocks[0].start == from
    requires forall k | 0 < k < n :: blocks[k].start == blocks[k - 1].end
    ensures n > 0 ==> n * step <= blocks[n - 1].end - from <= n * chunk
  {
    if n > 1 {
      var m := n - 1;
      InnerBlocksAdvance(from, chunk, step, blocks, m);
      OneMore(m, step);
      OneMore(m, chunk);
    }
  }

  lemma OneMore(m: nat, step: nat)
    ensures (m + 1) * step == m * step + step
  {
  }

  // Every block but the last covers more than half a block length, none more than a whole one.
  lemma BlockCount(raw: string, from: nat, to: nat, chunk: int, blocks: seq<Block>)
    requires from < to <= |raw| && IsCut(raw, from, to, chunk, blocks)
    ensures (|blocks| - 1) * (chunk / 2 + 1) < to - from <= |blocks| * chunk
  {
    var n, step := |blocks| - 1, chunk / 2 + 1;
    forall k | 0 <= k < n ensures step <= blocks[k].end - blocks[k].start <= chunk {
      assert IsInnerBlock(raw, blocks[k], chunk);
    }
    InnerBlocksAdvance(from, chunk, step, blocks, n);
    OneMore(n, chunk);
  }

  // ----- a page: a lead section, then headings with their sections

  ghost predicate AreHeadings(raw: string, headings: seq<Span>) {
    && (forall k | 0 <= k < |headings| :: headings[k].start <= headings[k].end <= |raw|)
    && (forall k | 0 < k < |headings| :: headings[k - 1].end <= headings[k].start)
  }

  function SectionEnd(raw: string, headings: seq<Span>, k: nat): nat {
    if k < |headings| then headings[k].start else |raw|
  }

  function SectionStart(headings: seq<Span>, k: nat): nat
    requires k <= |headings|
  {
    if k == 0 then 0 else headings[k - 1].end
  }

  // The sections of a page, the lead first, each cut into blocks.
  method CutPage(raw: string, headings: seq<Span>, chunk: int) returns (sections: seq<seq<Block>>)
    requires AreHeadings(raw, headings)
    ensures |sections| == |headings| + 1
    ensures chunk > 0 ==> forall k | 0 <= k < |sections| ::
      IsCut(raw, SectionStart(headings, k), SectionEnd(raw, headings, k), chunk, sections[k])
  {
    sections := [];
    for k := 0 to |headings| + 1
      invariant |sections| == k
      invariant chunk > 0 ==> forall i | 0 <= i < k ::
        IsCut(raw, SectionStart(headings, i), SectionEnd(raw, headings, i), chunk, sections[i])
    {
      var blocks := CutSection(raw, SectionStart(headings, k), SectionEnd(raw, headings, k), chunk);
      sections := sections + [blocks];
    }
  }

  // The blocks of the first n sections with the headings between them, each heading after its section.
  ghost function PageText(raw: string, headings: seq<Span>, sections: seq<seq<Block>>, n: nat): string
    requires n <= |sections| == |headings| + 1 && AreHeadings(raw, headings)
  {
    if n == 0 then []
    else
      var m := n - 1;
      PageText(raw, headings, sections, m) + Text(raw, sections[m]) +
      if m < |headings| then raw[headings[m].start..headings[m].end] else []
  }

  // No character of the page is lost or repeated.
  lemma {:induction false} PageIsTiled(raw: string, headings: seq<Span>, chunk: int, sections: seq<seq<Block>>, n: nat)
    requires AreHeadings(raw, headings) && n <= |sections| == |headings| + 1
    requires forall k | 0 <= k < |sections| ::
      IsCut(raw, SectionStart(headings, k), SectionEnd(raw, headings, k), chunk, sections[k])
    ensures PageText(raw, headings, sections, n) == raw[..if n <= |headings| then SectionStart(headings, n) else |raw|]
  {
    hide Text, IsCut, Slice;
    if n > 0 {
      var m := n - 1;
      PageIsTiled(raw, headings, chunk, sections, m);
      CutText(raw, SectionStart(headings, m), SectionEnd(raw, headings, m), chunk, sections[m]);
    }
  }
}
