/**
 * Download bookkeeping (`src/torrent.rs`): the content is cut into pieces and
 * each piece into 16 KiB blocks; a block goes NotRequested -> Requested ->
 * Done, and a request older than fifteen seconds is issued again.
 *
 * `Instant::now()` is the parameter `now`, a reading of a clock that counts
 * nanoseconds. Block lists live in a `seq` that the methods replace, where the
 * source mutates the vectors in place.
 */
module Torrents {
  import opened RustTypes
  import BitFields

  const FIXED_BLOCK_SIZE: nat := 16384

  /** Fifteen seconds, in clock units (nanoseconds). */
  const STALE_AFTER: nat := 15_000_000_000

  datatype BlockState = NotRequested | Requested | Done

  datatype Block = Block(
    data: Option<Bytes>,
    state: BlockState,
    index: nat,
    pieceIndex: nat,
    offset: nat,
    length: nat,
    lastRequest: Option<nat>)

  datatype Piece = Piece(index: nat, blocks: seq<Block>, length: nat)

  // ---------------------------------------------------------------------------
  // Layout
  // ---------------------------------------------------------------------------

  /**
   * Blocks in a full piece as the source computes them: `!!` on a `u32` is two
   * bitwise negations, the identity, so the remainder itself is added where a
   * rounding-up 1 was meant.
   */
  function BlocksPerPiece(pieceLength: nat): (r: nat)
    ensures r >= CoveringBlocks(pieceLength)
    ensures r * FIXED_BLOCK_SIZE >= pieceLength
    ensures pieceLength % FIXED_BLOCK_SIZE == 0 ==> r * FIXED_BLOCK_SIZE == pieceLength
  {
    pieceLength / FIXED_BLOCK_SIZE + pieceLength % FIXED_BLOCK_SIZE
  }

  /** `ceil(a / b)`. */
  function CeilDiv(a: nat, b: nat): (r: nat)
    requires b > 0
    ensures r * b >= a && (r == 0 || (r - 1) * b < a)
  {
    if a % b == 0 then a / b else a / b + 1
  }

  /** Blocks needed to cover a piece: what `BlocksPerPiece` was meant to be. */
  function CoveringBlocks(pieceLength: nat): (r: nat)
    ensures r * FIXED_BLOCK_SIZE >= pieceLength
    ensures r == 0 || (r - 1) * FIXED_BLOCK_SIZE < pieceLength
  {
    CeilDiv(pieceLength, FIXED_BLOCK_SIZE)
  }

  /**
   * The two agree only when the remainder is 0 or 1: a 128 KiB piece has 8
   * blocks either way, but a 20000-byte piece gets 3617 blocks instead of 2.
   */
  lemma BlocksPerPieceQuirk(pieceLength: nat)
    ensures BlocksPerPiece(pieceLength) == CoveringBlocks(pieceLength) <==> pieceLength % FIXED_BLOCK_SIZE <= 1
    ensures BlocksPerPiece(131072) == 8 == CoveringBlocks(131072)
    ensures BlocksPerPiece(20000) == 3617 && CoveringBlocks(20000) == 2
  {
  }

  /** The blocks of a new piece: offsets `16384 * j`, all NotRequested, no data. */
  function NewBlocks(count: nat, pieceIndex: nat): (r: seq<Block>)
    ensures |r| == count
    ensures forall j :: 0 <= j < count ==> r[j].state == NotRequested && r[j].offset == FIXED_BLOCK_SIZE * j
  {
    seq(count, j requires 0 <= j < count =>
      Block(None, NotRequested, j, pieceIndex, FIXED_BLOCK_SIZE * j, FIXED_BLOCK_SIZE, None))
  }

  /**
   * The pieces of `Torrent::new`: `numberOfPieces - 1` full pieces, then a last
   * piece of `totalLength % pieceLength` bytes, indexed `floor(totalLength /
   * pieceLength)`, with enough blocks to cover it.
   */
  function NewPieces(numberOfPieces: nat, pieceLength: nat, totalLength: nat): (r: seq<Piece>)
    requires numberOfPieces >= 1 && pieceLength > 0
    ensures |r| == numberOfPieces
    ensures forall i :: 0 <= i < numberOfPieces - 1 ==>
              r[i].index == i && r[i].length == pieceLength && |r[i].blocks| == BlocksPerPiece(pieceLength)
    ensures r[numberOfPieces - 1].length == totalLength % pieceLength
    ensures |r[numberOfPieces - 1].blocks| == CoveringBlocks(totalLength % pieceLength)
  {
    var full := seq(numberOfPieces - 1, i requires 0 <= i < numberOfPieces - 1 =>
      Piece(i, NewBlocks(BlocksPerPiece(pieceLength), i), pieceLength));
    var lastLength := totalLength % pieceLength;
    var lastIndex := totalLength / pieceLength;
    full + [Piece(lastIndex, NewBlocks(CoveringBlocks(lastLength), lastIndex), lastLength)]
  }

  /** `total_blocks` as the source computes it. */
  function TotalBlocks(numberOfPieces: nat, pieceLength: nat, totalLength: nat): (r: nat)
    requires numberOfPieces >= 1 && pieceLength > 0
    ensures r >= (numberOfPieces - 1) * CoveringBlocks(pieceLength) + CoveringBlocks(totalLength % pieceLength)
    ensures r * FIXED_BLOCK_SIZE >= (numberOfPieces - 1) * pieceLength + totalLength % pieceLength
  {
    var perPiece := BlocksPerPiece(pieceLength);
    MulAtLeast(numberOfPieces - 1, perPiece, CoveringBlocks(pieceLength));
    MulAtLeast(numberOfPieces - 1, perPiece * FIXED_BLOCK_SIZE, pieceLength);
    assert ((numberOfPieces - 1) * perPiece) * FIXED_BLOCK_SIZE == (numberOfPieces - 1) * (perPiece * FIXED_BLOCK_SIZE);
    (numberOfPieces - 1) * perPiece + CoveringBlocks(totalLength % pieceLength)
  }

  /** Multiplying by the same count keeps an order. */
  lemma MulAtLeast(n: nat, a: nat, b: nat)
    requires a >= b
    ensures n * a >= n * b
  {
  }

  // ---------------------------------------------------------------------------
  // Counting blocks
  // ---------------------------------------------------------------------------

  /** The number of blocks in the given state. */
  function CountBlocks(bs: seq<Block>, s: BlockState): (r: nat)
    ensures r <= |bs|
  {
    if bs == [] then 0
    else CountBlocks(bs[..|bs| - 1], s) + (if bs[|bs| - 1].state == s then 1 else 0)
  }

  /** The number of blocks, over all pieces, in the given state. */
  function Count(ps: seq<Piece>, s: BlockState): nat
  {
    if ps == [] then 0 else Count(ps[..|ps| - 1], s) + CountBlocks(ps[|ps| - 1].blocks, s)
  }

  /** Counting one more block of a piece. */
  lemma CountBlocksStep(bs: seq<Block>, j: nat)
    requires j < |bs|
    ensures forall s :: CountBlocks(bs[..j + 1], s) == CountBlocks(bs[..j], s) + (if bs[j].state == s then 1 else 0)
  {
    assert bs[..j + 1][..j] == bs[..j];
  }

  /** Counting one more piece. */
  lemma CountStep(ps: seq<Piece>, i: nat)
    requires i < |ps|
    ensures forall s :: Count(ps[..i + 1], s) == Count(ps[..i], s) + CountBlocks(ps[i].blocks, s)
  {
    assert ps[..i + 1][..i] == ps[..i];
  }

  /** The number of blocks over all pieces. */
  function Size(ps: seq<Piece>): nat
  {
    if ps == [] then 0 else Size(ps[..|ps| - 1]) + |ps[|ps| - 1].blocks|
  }

  lemma {:induction false} CountBlocksAddUp(bs: seq<Block>)
    ensures CountBlocks(bs, Done) + CountBlocks(bs, Requested) + CountBlocks(bs, NotRequested) == |bs|
  {
    if bs != [] {
      CountBlocksAddUp(bs[..|bs| - 1]);
    }
  }

  /** Every block is in exactly one state, so the three counts add up to the number of blocks. */
  lemma {:induction false} CountsAddUp(ps: seq<Piece>)
    ensures Count(ps, Done) + Count(ps, Requested) + Count(ps, NotRequested) == Size(ps)
  {
    if ps != [] {
      CountsAddUp(ps[..|ps| - 1]);
      CountBlocksAddUp(ps[|ps| - 1].blocks);
    }
  }

  lemma {:induction false} CountBlocksUpdate(bs: seq<Block>, j: nat, b: Block, s: BlockState)
    requires j < |bs|
    ensures CountBlocks(bs[j := b], s)
         == CountBlocks(bs, s) - (if bs[j].state == s then 1 else 0) + (if b.state == s then 1 else 0)
  {
    var n := |bs| - 1;
    if j < n {
      assert bs[j := b][..n] == bs[..n][j := b];
      CountBlocksUpdate(bs[..n], j, b, s);
    } else {
      assert bs[j := b][..n] == bs[..n];
    }
  }

  lemma {:induction false} CountUpdate(ps: seq<Piece>, i: nat, p: Piece, s: BlockState)
    requires i < |ps|
    ensures Count(ps[i := p], s) == Count(ps, s) - CountBlocks(ps[i].blocks, s) + CountBlocks(p.blocks, s)
  {
    var n := |ps| - 1;
    if i < n {
      assert ps[i := p][..n] == ps[..n][i := p];
      CountUpdate(ps[..n], i, p, s);
    } else {
      assert ps[i := p][..n] == ps[..n];
    }
  }

  lemma {:induction false} SizeUpdate(ps: seq<Piece>, i: nat, p: Piece)
    requires i < |ps| && |p.blocks| == |ps[i].blocks|
    ensures Size(ps[i := p]) == Size(ps)
  {
    var n := |ps| - 1;
    if i < n {
      assert ps[i := p][..n] == ps[..n][i := p];
      SizeUpdate(ps[..n], i, p);
    } else {
      assert ps[i := p][..n] == ps[..n];
    }
  }

  lemma {:induction false} SizeUniform(ps: seq<Piece>, k: nat)
    requires forall i :: 0 <= i < |ps| ==> |ps[i].blocks| == k
    ensures Size(ps) == |ps| * k
  {
    if ps != [] {
      SizeUniform(ps[..|ps| - 1], k);
      assert (|ps| - 1) * k + k == |ps| * k;
    }
  }

  /** The pieces `Torrent::new` lays out hold exactly `total_blocks` blocks. */
  lemma NewPiecesSize(numberOfPieces: nat, pieceLength: nat, totalLength: nat)
    requires numberOfPieces >= 1 && pieceLength > 0
    ensures Size(NewPieces(numberOfPieces, pieceLength, totalLength)) == TotalBlocks(numberOfPieces, pieceLength, totalLength)
  {
    var ps := NewPieces(numberOfPieces, pieceLength, totalLength);
    var n := numberOfPieces - 1;
    SizeUniform(ps[..n], BlocksPerPiece(pieceLength));
  }

  /** Blocks state where they sit: in piece `i` of the layout, block `j` has index `j` and piece index `i`. */
  lemma NewPiecesBlocks(numberOfPieces: nat, pieceLength: nat, totalLength: nat, i: nat, j: nat)
    requires numberOfPieces >= 1 && pieceLength > 0
    requires i < numberOfPieces - 1 && j < BlocksPerPiece(pieceLength)
    ensures NewPieces(numberOfPieces, pieceLength, totalLength)[i].blocks[j]
         == Block(None, NotRequested, j, i, FIXED_BLOCK_SIZE * j, FIXED_BLOCK_SIZE, None)
  {
  }

  /** The layout for a 170835968-byte file in 128 KiB pieces: 1304 pieces, 8 blocks each but the last, which has 3; 10427 blocks. */
  lemma NewPiecesExample()
    ensures |NewPieces(1304, 131072, 170835968)| == 1304
    ensures |NewPieces(1304, 131072, 170835968)[0].blocks| == 8
    ensures NewPieces(1304, 131072, 170835968)[1303].length == 49152
    ensures |NewPieces(1304, 131072, 170835968)[1303].blocks| == 3
    ensures TotalBlocks(1304, 131072, 170835968) == 10427
  {
  }

  // ---------------------------------------------------------------------------
  // Choosing the next block
  // ---------------------------------------------------------------------------

  /** A block worth asking for at time `now`: never requested, or requested more than fifteen seconds ago. */
  predicate Qualifies(b: Block, now: nat)
    ensures Qualifies(b, now) ==> b.state != Done
    ensures b.state == NotRequested ==> Qualifies(b, now)
    ensures b.state == Requested && b.lastRequest.Some? ==> (Qualifies(b, now) <==> now > b.lastRequest.value + STALE_AFTER)
  {
    b.state == NotRequested
    || (b.state == Requested && b.lastRequest.Some? && now - b.lastRequest.value > STALE_AFTER)
  }

  /**
   * A piece the peer's bitfield is consulted for: `is_set(index).is_ok()`,
   * which holds exactly when the index is below the bitfield's capacity in
   * bits, whether or not the bit is set.
   */
  predicate Eligible(p: Piece, capacity: nat)
  {
    p.index < capacity
  }

  /** The first qualifying block at or after `j`. */
  function FirstBlock(bs: seq<Block>, now: nat, j: nat): (r: Option<nat>)
    requires j <= |bs|
    ensures r.Some? ==> j <= r.value < |bs| && Qualifies(bs[r.value], now)
    ensures r.Some? ==> forall k :: j <= k < r.value ==> !Qualifies(bs[k], now)
    ensures r.None? ==> forall k :: j <= k < |bs| ==> !Qualifies(bs[k], now)
    decreases |bs| - j
  {
    if j == |bs| then None
    else if Qualifies(bs[j], now) then Some(j)
    else FirstBlock(bs, now, j + 1)
  }

  /** The first qualifying block of an eligible piece, pieces in order and blocks in order, from piece `i` on. */
  function FirstFrom(ps: seq<Piece>, capacity: nat, now: nat, i: nat): (r: Option<(nat, nat)>)
    requires i <= |ps|
    ensures r.Some? ==> i <= r.value.0 < |ps| && Eligible(ps[r.value.0], capacity)
    ensures r.Some? ==> r.value.1 < |ps[r.value.0].blocks| && Qualifies(ps[r.value.0].blocks[r.value.1], now)
    ensures r.Some? ==> forall k :: 0 <= k < r.value.1 ==> !Qualifies(ps[r.value.0].blocks[k], now)
    ensures r.Some? ==> forall i' :: i <= i' < r.value.0 && Eligible(ps[i'], capacity) ==> FirstBlock(ps[i'].blocks, now, 0).None?
    ensures r.None? ==> forall i' :: i <= i' < |ps| && Eligible(ps[i'], capacity) ==> FirstBlock(ps[i'].blocks, now, 0).None?
    decreases |ps| - i
  {
    if i == |ps| then None
    else if Eligible(ps[i], capacity) && FirstBlock(ps[i].blocks, now, 0).Some? then
      Some((i, FirstBlock(ps[i].blocks, now, 0).value))
    else FirstFrom(ps, capacity, now, i + 1)
  }

  /** Block `j` of piece `i` marked Requested at `now`. */
  function Stamp(ps: seq<Piece>, i: nat, j: nat, now: nat): (r: seq<Piece>)
    requires i < |ps| && j < |ps[i].blocks|
    ensures |r| == |ps| && |r[i].blocks| == |ps[i].blocks|
  {
    var b := ps[i].blocks[j];
    ps[i := ps[i].(blocks := ps[i].blocks[j := b.(state := Requested, lastRequest := Some(now))])]
  }

  /** What `get_next_block` reports for a block. */
  function Coordinates(b: Block): (nat, nat, nat)
  {
    (b.pieceIndex, b.offset, b.length)
  }

  /** A block is never reported Done: the chosen block is not Done, and no Done block ever qualifies. */
  lemma ChosenIsNotDone(ps: seq<Piece>, capacity: nat, now: nat)
    requires FirstFrom(ps, capacity, now, 0).Some?
    ensures var (i, j) := FirstFrom(ps, capacity, now, 0).value; ps[i].blocks[j].state != Done
  {
  }

  /** A Requested block qualifies again only once more than fifteen seconds have passed since its stamp. */
  lemma RequestedQualifiesWhenStale(b: Block, now: nat)
    requires b.state == Requested && b.lastRequest.Some?
    ensures Qualifies(b, now) <==> now > b.lastRequest.value + STALE_AFTER
  {
  }

  /** Once stamped, a block does not qualify again until the fifteen seconds are over. */
  lemma StampedWaits(ps: seq<Piece>, i: nat, j: nat, now: nat, later: nat)
    requires i < |ps| && j < |ps[i].blocks| && later <= now + STALE_AFTER
    ensures !Qualifies(Stamp(ps, i, j, now)[i].blocks[j], later)
  {
  }

  // ---------------------------------------------------------------------------
  // Filling a block
  // ---------------------------------------------------------------------------

  /**
   * The pieces after `fill_block(index, offset, data)`: block `offset / 16384`
   * of the piece at position `index` is Done with `data`; an index or block
   * out of range changes nothing.
   */
  function Filled(ps: seq<Piece>, index: nat, offset: nat, data: Bytes): (r: seq<Piece>)
    ensures |r| == |ps|
    ensures forall i :: 0 <= i < |ps| ==> |r[i].blocks| == |ps[i].blocks|
    ensures !(index < |ps| && offset / FIXED_BLOCK_SIZE < |ps[index].blocks|) ==> r == ps
  {
    var j := offset / FIXED_BLOCK_SIZE;
    if index < |ps| && j < |ps[index].blocks| then
      var b := ps[index].blocks[j];
      ps[index := ps[index].(blocks := ps[index].blocks[j := b.(state := Done, data := Some(data))])]
    else ps
  }

  /** Filling a block that was not Done adds exactly one to the Done count; filling again adds nothing. */
  lemma FilledCountsDone(ps: seq<Piece>, index: nat, offset: nat, data: Bytes)
    requires index < |ps| && offset / FIXED_BLOCK_SIZE < |ps[index].blocks|
    ensures Count(Filled(ps, index, offset, data), Done)
         == Count(ps, Done) + (if ps[index].blocks[offset / FIXED_BLOCK_SIZE].state == Done then 0 else 1)
  {
    var j := offset / FIXED_BLOCK_SIZE;
    var b := ps[index].blocks[j];
    var p := ps[index].(blocks := ps[index].blocks[j := b.(state := Done, data := Some(data))]);
    CountBlocksUpdate(ps[index].blocks, j, b.(state := Done, data := Some(data)), Done);
    CountUpdate(ps, index, p, Done);
  }

  /** Filling the same block with the same data twice is filling it once. */
  lemma FilledIdempotent(ps: seq<Piece>, index: nat, offset: nat, data: Bytes)
    ensures Filled(Filled(ps, index, offset, data), index, offset, data) == Filled(ps, index, offset, data)
  {
    var j := offset / FIXED_BLOCK_SIZE;
    if index < |ps| && j < |ps[index].blocks| {
      var once := Filled(ps, index, offset, data);
      var b := once[index].blocks[j];
      assert b.state == Done && b.data == Some(data);
      assert b.(state := Done, data := Some(data)) == b;
      assert once[index].blocks[j := b] == once[index].blocks;
      assert once[index].(blocks := once[index].blocks) == once[index];
    }
  }

  // ---------------------------------------------------------------------------
  // The torrent
  // ---------------------------------------------------------------------------

  /** Every block of every piece is Done. */
  predicate AllDone(ps: seq<Piece>)
  {
    forall i, j :: 0 <= i < |ps| && 0 <= j < |ps[i].blocks| ==> ps[i].blocks[j].state == Done
  }

  /** Every Requested block carries the time of its request, so `last_request.unwrap()` cannot panic. */
  predicate Stamped(ps: seq<Piece>)
  {
    forall i, j :: 0 <= i < |ps| && 0 <= j < |ps[i].blocks| && ps[i].blocks[j].state == Requested ==>
      ps[i].blocks[j].lastRequest.Some?
  }

  lemma {:induction false} AllDoneCount(ps: seq<Piece>)
    requires AllDone(ps)
    ensures Count(ps, Done) == Size(ps)
  {
    if ps != [] {
      var last := ps[|ps| - 1].blocks;
      AllDoneCount(ps[..|ps| - 1]);
      CountBlocksAddUp(last);
      assert CountBlocks(last, Requested) == 0 by { NoneInState(last, Requested); }
      assert CountBlocks(last, NotRequested) == 0 by { NoneInState(last, NotRequested); }
    }
  }

  lemma {:induction false} NoneInState(bs: seq<Block>, s: BlockState)
    requires forall j :: 0 <= j < |bs| ==> bs[j].state != s
    ensures CountBlocks(bs, s) == 0
  {
    if bs != [] {
      NoneInState(bs[..|bs| - 1], s);
    }
  }

  lemma StampValid(ps: seq<Piece>, i: nat, j: nat, now: nat)
    requires i < |ps| && j < |ps[i].blocks| && Stamped(ps)
    ensures Size(Stamp(ps, i, j, now)) == Size(ps) && Stamped(Stamp(ps, i, j, now))
  {
    var b := ps[i].blocks[j];
    SizeUpdate(ps, i, ps[i].(blocks := ps[i].blocks[j := b.(state := Requested, lastRequest := Some(now))]));
  }

  lemma FilledValid(ps: seq<Piece>, index: nat, offset: nat, data: Bytes)
    requires Stamped(ps)
    ensures Size(Filled(ps, index, offset, data)) == Size(ps) && Stamped(Filled(ps, index, offset, data))
  {
    var j := offset / FIXED_BLOCK_SIZE;
    if index < |ps| && j < |ps[index].blocks| {
      var b := ps[index].blocks[j];
      SizeUpdate(ps, index, ps[index].(blocks := ps[index].blocks[j := b.(state := Done, data := Some(data))]));
    }
  }

  class Torrent {
    var totalBlocks: nat
    var pieces: seq<Piece>
    var pieceLength: nat
    var numBlocksPerPiece: nat
    var fileName: string

    /** `total_blocks` is the number of blocks laid out, and every Requested block has a stamp. */
    predicate Valid()
      reads this
    {
      Size(pieces) == totalBlocks && Stamped(pieces)
    }

    /**
     * `Torrent::new` from what `PiecedContent` reports. The source panics on
     * zero pieces (`u32` underflow) or a zero piece length (`%` by zero).
     */
    constructor New(numberOfPieces: nat, pieceLength: nat, totalLength: nat, name: string)
      requires numberOfPieces >= 1 && pieceLength > 0
      ensures Valid()
      ensures pieces == NewPieces(numberOfPieces, pieceLength, totalLength)
      ensures totalBlocks == TotalBlocks(numberOfPieces, pieceLength, totalLength)
      ensures this.pieceLength == pieceLength && numBlocksPerPiece == BlocksPerPiece(pieceLength) && fileName == name
    {
      totalBlocks := TotalBlocks(numberOfPieces, pieceLength, totalLength);
      pieces := NewPieces(numberOfPieces, pieceLength, totalLength);
      this.pieceLength := pieceLength;
      numBlocksPerPiece := BlocksPerPiece(pieceLength);
      fileName := name;
      NewPiecesSize(numberOfPieces, pieceLength, totalLength);
    }

    /**
     * `get_next_block`: the first block, in piece order then block order, of a
     * piece the bitfield has room for, that was never requested or was
     * requested more than fifteen seconds ago; it is stamped Requested at
     * `now` and reported. `None` when no block qualifies.
     */
    method GetNextBlock(bitfield: BitFields.BitField, now: nat) returns (r: Option<(nat, nat, nat)>)
      requires Valid()
      modifies this
      ensures Valid()
      ensures totalBlocks == old(totalBlocks) && pieceLength == old(pieceLength)
      ensures numBlocksPerPiece == old(numBlocksPerPiece) && fileName == old(fileName)
      ensures var next := FirstFrom(old(pieces), 8 * bitfield.bf.Length, now, 0);
              if next.None? then r.None? && pieces == old(pieces)
              else r == Some(Coordinates(old(pieces)[next.value.0].blocks[next.value.1]))
                   && pieces == Stamp(old(pieces), next.value.0, next.value.1, now)
    {
      ghost var capacity := 8 * bitfield.bf.Length;
      var i := 0;
      while i < |pieces|
        invariant i <= |pieces| && pieces == old(pieces)
        invariant FirstFrom(pieces, capacity, now, i) == FirstFrom(pieces, capacity, now, 0)
      {
        var p := pieces[i];
        if bitfield.IsSet(p.index).Ok? {
          var j := 0;
          while j < |p.blocks|
            invariant j <= |p.blocks|
            invariant FirstBlock(p.blocks, now, j) == FirstBlock(p.blocks, now, 0)
          {
            var b := p.blocks[j];
            match b.state {
              case Done =>
              case Requested =>
                var last := b.lastRequest.value;
                if now - last > STALE_AFTER {
                  StampValid(pieces, i, j, now);
                  pieces := Stamp(pieces, i, j, now);
                  return Some((b.pieceIndex, b.offset, b.length));
                }
              case NotRequested =>
                StampValid(pieces, i, j, now);
                pieces := Stamp(pieces, i, j, now);
                return Some((b.pieceIndex, b.offset, b.length));
            }
            j := j + 1;
          }
        }
        i := i + 1;
      }
      return None;
    }

    /** `fill_block((index, offset, data))`. */
    method FillBlock(index: nat, offset: nat, data: Bytes)
      requires Valid()
      modifies this
      ensures Valid()
      ensures pieces == Filled(old(pieces), index, offset, data)
      ensures totalBlocks == old(totalBlocks) && pieceLength == old(pieceLength)
      ensures numBlocksPerPiece == old(numBlocksPerPiece) && fileName == old(fileName)
    {
      var blockIndex := offset / FIXED_BLOCK_SIZE;
      if index < |pieces| {
        var piece := pieces[index];
        if blockIndex < |piece.blocks| {
          var b := piece.blocks[blockIndex];
          FilledValid(pieces, index, offset, data);
          pieces := pieces[index := piece.(blocks := piece.blocks[blockIndex := b.(state := Done, data := Some(data))])];
        }
      }
    }

    /** `progress` without the percentage: how many blocks are Done, Requested and NotRequested. */
    method Progress() returns (completed: nat, requested: nat, notRequested: nat)
      ensures completed == Count(pieces, Done)
      ensures requested == Count(pieces, Requested)
      ensures notRequested == Count(pieces, NotRequested)
      ensures Valid() ==> completed + requested + notRequested == totalBlocks
    {
      completed, requested, notRequested := 0, 0, 0;
      for i := 0 to |pieces|
        invariant completed == Count(pieces[..i], Done)
        invariant requested == Count(pieces[..i], Requested)
        invariant notRequested == Count(pieces[..i], NotRequested)
      {
        var blocks := pieces[i].blocks;
        for j := 0 to |blocks|
          invariant completed == Count(pieces[..i], Done) + CountBlocks(blocks[..j], Done)
          invariant requested == Count(pieces[..i], Requested) + CountBlocks(blocks[..j], Requested)
          invariant notRequested == Count(pieces[..i], NotRequested) + CountBlocks(blocks[..j], NotRequested)
        {
          CountBlocksStep(blocks, j);
          match blocks[j].state {
            case Done => completed := completed + 1;
            case Requested => requested := requested + 1;
            case NotRequested => notRequested := notRequested + 1;
          }
        }
        assert blocks[..|blocks|] == blocks;
        CountStep(pieces, i);
      }
      assert pieces[..|pieces|] == pieces;
      CountsAddUp(pieces);
    }

    /** `are_we_done_yet`: every block Done, and as many Done blocks as `total_blocks`. */
    method AreWeDoneYet() returns (r: bool)
      ensures r == (AllDone(pieces) && Count(pieces, Done) == totalBlocks)
      ensures Valid() ==> (r <==> AllDone(pieces))
    {
      var completed := 0;
      for i := 0 to |pieces|
        invariant completed == Count(pieces[..i], Done)
        invariant forall i', j :: 0 <= i' < i && 0 <= j < |pieces[i'].blocks| ==> pieces[i'].blocks[j].state == Done
      {
        var blocks := pieces[i].blocks;
        for j := 0 to |blocks|
          invariant completed == Count(pieces[..i], Done) + CountBlocks(blocks[..j], Done)
          invariant forall k :: 0 <= k < j ==> blocks[k].state == Done
        {
          CountBlocksStep(blocks, j);
          match blocks[j].state {
            case Done => completed := completed + 1;
            case Requested => return false;
            case NotRequested => return false;
          }
        }
        assert blocks[..|blocks|] == blocks;
        CountStep(pieces, i);
      }
      assert pieces[..|pieces|] == pieces;
      AllDoneCount(pieces);
      r := completed == totalBlocks;
    }
  }

  /**
   * `get_next_block` also re-issues any Requested block once `progress > 95.0`;
   * that branch is dead, because the Done count never exceeds `total_blocks`,
   * so the fraction is at most 1.
   */
  lemma ProgressAtMostOne(ps: seq<Piece>, totalBlocks: nat)
    requires Size(ps) == totalBlocks
    ensures Count(ps, Done) <= totalBlocks
    ensures !(Count(ps, Done) > 95 * totalBlocks)
  {
    CountsAddUp(ps);
  }
}
