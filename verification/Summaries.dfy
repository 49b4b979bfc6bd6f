/** Counts of a row's cells, and the per-block ply bounds that prune the scans. */
module Summaries {
  import opened Cells
  import opened Outcomes
  import opened Propagation

  // ---------------------------------------------------------------------
  // Counting cells.

  datatype Class = WonAt(plies: nat) | LostAt(plies: nat) | Unresolved

  predicate InClass(c: Cell, k: Class) {
    match k
    case WonAt(n) => c.Won? && c.plies == n
    case LostAt(n) => c.Lost? && c.plies == n
    case Unresolved => c.Unknown?
  }

  function Count(row: Row, k: Class): nat {
    if row == [] then 0
    else Count(row[..|row| - 1], k) + if InClass(row[|row| - 1], k) then 1 else 0
  }

  lemma {:induction false} CountAfterUpdate(row: Row, i: nat, c: Cell, k: Class)
    requires i < |row|
    ensures Count(row[i := c], k) + (if InClass(row[i], k) then 1 else 0)
         == Count(row, k) + (if InClass(c, k) then 1 else 0)
  {
    var n := |row| - 1;
    if i < n {
      CountAfterUpdate(row[..n], i, c, k);
      assert row[i := c][..n] == row[..n][i := c];
    } else {
      assert row[i := c][..n] == row[..n];
    }
  }

  lemma {:induction false} CountIsZero(row: Row, k: Class)
    ensures Count(row, k) == 0 <==> forall i | 0 <= i < |row| :: !InClass(row[i], k)
  {
    if row != [] {
      CountIsZero(row[..|row| - 1], k);
    }
  }

  /** Positions resolved at one ply. */
  datatype Found = Found(wins: nat, losses: nat) {
    function Merge(other: Found): Found {
      Found(wins + other.wins, losses + other.losses)
    }

    predicate IsEmpty() { wins == 0 && losses == 0 }
  }

  lemma MergedCounts(f: Found, g: Found)
    ensures f.Merge(g).wins == f.wins + g.wins && f.Merge(g).losses == f.losses + g.losses
  {
  }

  function FoundAt(row: Row, plies: nat): Found {
    Found(Count(row, WonAt(plies)), Count(row, LostAt(plies)))
  }

  // ---------------------------------------------------------------------
  // Block bounds.

  const SUMMARY_BLOCK_SIZE: nat := 4096

  datatype SummaryKind = LossKind | WinKind(ct: ConversionType)

  function KindOf(c: Cell): SummaryKind
    requires c.Won? || c.Lost?
  {
    if c.Lost? then LossKind else WinKind(c.ct)
  }

  /** Per kind: zero if nothing was recorded, else more than every recorded ply. */
  datatype BlockSummary = BlockSummary(loss: nat, checkmate: nat, capture: nat, promotion: nat) {
    function Bound(kind: SummaryKind): nat {
      match kind
      case LossKind => loss
      case WinKind(Checkmate) => checkmate
      case WinKind(Capture) => capture
      case WinKind(Promotion) => promotion
    }

    function With(kind: SummaryKind, bound: nat): BlockSummary {
      match kind
      case LossKind => this.(loss := bound)
      case WinKind(Checkmate) => this.(checkmate := bound)
      case WinKind(Capture) => this.(capture := bound)
      case WinKind(Promotion) => this.(promotion := bound)
    }

    function Raise(kind: SummaryKind, bound: nat): BlockSummary {
      if Bound(kind) < bound then With(kind, bound) else this
    }
  }

  const EMPTY_BLOCK := BlockSummary(0, 0, 0, 0)

  function NumBlocks(size: nat): nat {
    (size + SUMMARY_BLOCK_SIZE - 1) / SUMMARY_BLOCK_SIZE
  }

  function BlockOf(i: nat): nat {
    i / SUMMARY_BLOCK_SIZE
  }

  lemma BlockExists(i: nat, size: nat)
    requires i < size
    ensures BlockOf(i) < NumBlocks(size)
  {
  }

  /** Each block bound exceeds the ply of every cell of its kind in the block. */
  ghost predicate Bounded(row: Row, blocks: seq<BlockSummary>) {
    && |blocks| == NumBlocks(|row|)
    && forall i: nat | i < |row| :: CellBounded(row[i], blocks, BlockOf(i))
  }

  ghost predicate CellBounded(c: Cell, blocks: seq<BlockSummary>, b: nat) {
    (c.Won? || c.Lost?) ==> b < |blocks| && c.plies < blocks[b].Bound(KindOf(c))
  }

  /** The ranges returned for a kind and ply: ascending, and covering exactly the
      blocks whose bound exceeds the ply. */
  ghost predicate CoversBlocks(ranges: seq<(nat, nat)>, blocks: seq<BlockSummary>, size: nat, kind: SummaryKind,
                               plies: nat)
    requires |blocks| == NumBlocks(size)
  {
    && (forall k | 0 <= k < |ranges| :: ranges[k].0 <= ranges[k].1 <= size)
    && (forall k, l | 0 <= k < l < |ranges| :: ranges[k].1 <= ranges[l].0)
    && (forall i: nat | i < size && BlockOf(i) < |blocks| ::
          blocks[BlockOf(i)].Bound(kind) > plies <==> InRanges(ranges, i))
  }

  ghost predicate InRanges(ranges: seq<(nat, nat)>, i: nat) {
    exists k :: 0 <= k < |ranges| && ranges[k].0 <= i < ranges[k].1
  }

  class PlySummary {
    const size: nat
    const blocks: array<BlockSummary>

    ghost predicate Valid() {
      blocks.Length == NumBlocks(size)
    }

    constructor (size: nat)
      ensures Valid() && this.size == size && fresh(blocks)
      ensures forall b | 0 <= b < blocks.Length :: blocks[b] == EMPTY_BLOCK
    {
      this.size := size;
      blocks := new BlockSummary[NumBlocks(size)](_ => EMPTY_BLOCK);
    }

    method Record(localIndex: nat, kind: SummaryKind, plies: nat)
      requires Valid() && localIndex < size
      modifies blocks
      ensures BlockOf(localIndex) < blocks.Length
      ensures blocks[..]
              == old(blocks[..])[BlockOf(localIndex) := old(blocks[BlockOf(localIndex)]).Raise(kind, plies + 1)]
    {
      BlockExists(localIndex, size);
      var b := BlockOf(localIndex);
      if blocks[b].Bound(kind) < plies + 1 {
        blocks[b] := blocks[b].With(kind, plies + 1);
      }
    }

    method BlocksWith(kind: SummaryKind, plies: nat) returns (ranges: seq<(nat, nat)>)
      requires Valid()
      ensures CoversBlocks(ranges, blocks[..], size, kind, plies)
    {
      ranges := [];
      for b := 0 to blocks.Length
        invariant forall k | 0 <= k < |ranges| ::
                    ranges[k].0 <= ranges[k].1 <= size && ranges[k].1 <= b * SUMMARY_BLOCK_SIZE
        invariant forall k, l | 0 <= k < l < |ranges| :: ranges[k].1 <= ranges[l].0
        invariant forall i: nat | i < size && BlockOf(i) < b ::
                    blocks[BlockOf(i)].Bound(kind) > plies <==> InRanges(ranges, i)
        invariant forall i: nat | i < size && BlockOf(i) >= b :: !InRanges(ranges, i)
      {
        if blocks[b].Bound(kind) >= plies + 1 {
          var start := b * SUMMARY_BLOCK_SIZE;
          var end := if start + SUMMARY_BLOCK_SIZE < size then start + SUMMARY_BLOCK_SIZE else size;
          ghost var before := ranges;
          ranges := ranges + [(start, end)];
          forall i: nat | i < size ensures InRanges(ranges, i) <==> InRanges(before, i) || BlockOf(i) == b {
            if InRanges(before, i) {
              var k :| 0 <= k < |before| && before[k].0 <= i < before[k].1;
              assert ranges[k] == before[k];
            }
            if BlockOf(i) == b {
              assert ranges[|before|].0 <= i < ranges[|before|].1;
            }
          }
        }
      }
    }
  }

  /** A cell within a raised bound keeps all cells bounded. */
  lemma RaisedKeepsBounded(row: Row, blocks: seq<BlockSummary>, i: nat, c: Cell, kind: SummaryKind, bound: nat)
    requires Bounded(row, blocks) && i < |row|
    requires c.Won? || c.Lost? ==> KindOf(c) == kind && c.plies < bound
    ensures BlockOf(i) < |blocks|
    ensures Bounded(row[i := c], blocks[BlockOf(i) := blocks[BlockOf(i)].Raise(kind, bound)])
  {
    BlockExists(i, |row|);
    RaisedBound(blocks[BlockOf(i)], kind, bound);
  }

  lemma RaisedBound(block: BlockSummary, kind: SummaryKind, bound: nat)
    ensures bound <= block.Raise(kind, bound).Bound(kind)
    ensures forall k :: block.Bound(k) <= block.Raise(kind, bound).Bound(k)
  {
  }

  lemma UnknownKeepsBounded(row: Row, blocks: seq<BlockSummary>, i: nat, c: Cell)
    requires Bounded(row, blocks) && i < |row| && c.Unknown?
    ensures Bounded(row[i := c], blocks)
  {
  }

  /** A scan of the covered ranges misses no source. */
  lemma NoSourceOutside(row: Row, blocks: seq<BlockSummary>, ranges: seq<(nat, nat)>, kind: SummaryKind, plies: nat,
                        i: nat)
    requires Bounded(row, blocks) && CoversBlocks(ranges, blocks, |row|, kind, plies)
    requires i < |row| && (row[i].Won? || row[i].Lost?) && KindOf(row[i]) == kind && row[i].plies == plies
    ensures InRanges(ranges, i)
  {
    BlockExists(i, |row|);
    assert CellBounded(row[i], blocks, BlockOf(i));
  }
}
