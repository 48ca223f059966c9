/** The allocation bitmaps byte by byte (`kernel/fs/disk.c`): a bit is the mask `1 << (7 - k)` of its byte. */
module Bitmaps {
  import opened Arithmetic
  import opened Common
  import opened InodePath
  import opened Blocks

  datatype Err = Success | InvalidArgs | NoFreeBlocks

  // ---------------------------------------------------------------------------
  // Bits of a byte
  // ---------------------------------------------------------------------------

  function Mask(k: nat): bv8
    requires k < 8
  {
    match k
    case 0 => 0x80
    case 1 => 0x40
    case 2 => 0x20
    case 3 => 0x10
    case 4 => 0x08
    case 5 => 0x04
    case 6 => 0x02
    case _ => 0x01
  }

  /** Bit `k` of a byte, counted from the top. */
  ghost predicate BitOf(x: bv8, k: nat)
    requires k < 8
  {
    (x >> (7 - k)) & 1 == 1
  }

  /** The mask picks out its bit. */
  lemma MaskBit(x: bv8, k: nat)
    requires k < 8
    ensures x & Mask(k) != 0 <==> BitOf(x, k)
  {
    match k
    case 0 =>
    case 1 =>
    case 2 =>
    case 3 =>
    case 4 =>
    case 5 =>
    case 6 =>
    case _ =>
  }

  /** The byte with bit `k` set or cleared. */
  function Updated(x: bv8, k: nat, on: bool): bv8
    requires k < 8
  {
    if on then x | Mask(k) else x & !Mask(k)
  }

  lemma SetOne(x: bv8, k: nat, j: nat)
    requires k < 8 && j < 8
    ensures BitOf(x | Mask(k), j) <==> j == k || BitOf(x, j)
    ensures BitOf(x & !Mask(k), j) <==> j != k && BitOf(x, j)
  {
    hide BitOf;
    MaskBit(x, j);
    MaskBit(x | Mask(k), j);
    MaskBit(x & !Mask(k), j);
  }

  lemma AllOnes(j: nat)
    requires j < 8
    ensures BitOf(0xFF, j)
  {
    hide BitOf;
    MaskBit(0xFF, j);
  }

  // ---------------------------------------------------------------------------
  // Bits of the bitmap
  // ---------------------------------------------------------------------------

  /** Bit `i` of the bytes. */
  ghost predicate Bit(bytes: seq<bv8>, i: nat) {
    i / 8 < |bytes| && BitOf(bytes[i / 8], i % 8)
  }

  lemma BitAt(bytes: seq<bv8>, y: nat, k: nat)
    requires y < |bytes| && k < 8
    ensures Bit(bytes, 8 * y + k) <==> BitOf(bytes[y], k)
  {
    assert (8 * y + k) / 8 == y && (8 * y + k) % 8 == k;
  }

  /** `bytes'` has bit `b` as `on` says, and is as `bytes` elsewhere. */
  ghost predicate Sets(bytes: seq<bv8>, bytes': seq<bv8>, b: nat, on: bool) {
    && |bytes'| == |bytes|
    && forall i: nat {:trigger Bit(bytes', i)} :: Bit(bytes', i) <==> if i == b then on else Bit(bytes, i)
  }

  lemma ByteSets(bytes: seq<bv8>, y: nat, k: nat, on: bool, bytes': seq<bv8>)
    requires y < |bytes| && k < 8
    requires bytes' == bytes[y := Updated(bytes[y], k, on)]
    ensures Sets(bytes, bytes', 8 * y + k, on)
  {
    hide BitOf, Mask;
    forall i: nat
      ensures Bit(bytes', i) <==> if i == 8 * y + k then on else Bit(bytes, i)
    {
      if i / 8 == y {
        SetOne(bytes[y], k, i % 8);
      }
    }
  }

  // ---------------------------------------------------------------------------
  // A new bitmap
  // ---------------------------------------------------------------------------

  /** A bit of a new bitmap is set if the block is in use from the start, or there is no such block. */
  predicate Marked(i: nat, used: nat, total: nat) {
    i < used || i >= total
  }

  /** The bits below `n` are those of a new bitmap. */
  ghost predicate Formatted(bytes: seq<bv8>, n: nat, used: nat, total: nat) {
    forall i: nat {:trigger Bit(bytes, i)} :: i < n && i < 8 * |bytes| ==> (Bit(bytes, i) <==> i < used || i >= total)
  }

  /** So are the bits of one block, the first of which is `first`. */
  ghost predicate BlockFormatted(data: seq<bv8>, first: nat, used: nat, total: nat) {
    forall i: nat {:trigger Bit(data, i)} :: i < 8 * |data| ==> (Bit(data, i) <==> first + i < used || first + i >= total)
  }

  /** The bits from `first` up to `end` are all set, or all clear if `v` is 0. */
  predicate Solid(first: nat, end: nat, used: nat, total: nat, v: bv8) {
    if v == 0xFF then end <= used || first >= total else first >= used && end <= total
  }

  /** So are those of `run` blocks. */
  ghost predicate AllSolid(block: nat, run: nat, bpb: nat, used: nat, total: nat, v: bv8) {
    forall o: nat, j: nat {:trigger Begins(o, j, bpb)} :: block <= j < block + run && Begins(o, j, bpb) ==>
      Solid(8 * o, 8 * (o + bpb), used, total, v)
  }

  lemma OneSolid(block: nat, off: nat, bpb: nat, used: nat, total: nat, v: bv8)
    requires Begins(off, block, bpb) && Solid(8 * off, 8 * (off + bpb), used, total, v)
    ensures AllSolid(block, 1, bpb, used, total, v)
  {
    hide Solid;
    forall o: nat, j: nat | block <= j < block + 1 && Begins(o, j, bpb)
      ensures o == off
    {
    }
  }

  lemma NoneFormatted(bytes: seq<bv8>, used: nat, total: nat)
    ensures Formatted(bytes, 0, used, total)
  {
  }

  lemma NoBits(data: seq<bv8>)
    requires forall y :: 0 <= y < |data| ==> data[y] == 0
    ensures forall i: nat {:trigger Bit(data, i)} :: !Bit(data, i)
  {
    forall i: nat ensures !Bit(data, i) {
      if i / 8 < |data| {
        assert data[i / 8] == 0;
      }
    }
  }

  /** A block of equal bytes. */
  lemma SolidFormatted(data: seq<bv8>, first: nat, end: nat, used: nat, total: nat, v: bv8)
    requires Solid(first, end, used, total, v) && (v == 0xFF || v == 0) && end == first + 8 * |data|
    requires forall y :: 0 <= y < |data| ==> data[y] == v
    ensures BlockFormatted(data, first, used, total)
  {
    hide BitOf, Mask;
    forall i: nat | i < 8 * |data|
      ensures Bit(data, i) <==> Marked(first + i, used, total)
    {
      if v == 0xFF {
        AllOnes(i % 8);
      } else {
        NoBits(data);
      }
    }
  }

  /** Writing the next block formats its bits. */
  lemma BlockWritten(blocks: seq<seq<bv8>>, bpb: nat, b: nat, off: nat, data: seq<bv8>, used: nat, total: nat)
    requires Blocked(blocks, bpb) && b < |blocks| && Begins(off, b, bpb) && |data| == bpb
    requires Formatted(Flat(blocks), 8 * off, used, total) && BlockFormatted(data, 8 * off, used, total)
    ensures Blocked(blocks[b := data], bpb) && Formatted(Flat(blocks[b := data]), 8 * (off + bpb), used, total)
  {
    hide Flat, Blocked, Begins, BitOf;
    BlockPut(blocks, bpb, b, off, data);
    var bytes, bytes' := Flat(blocks), Flat(blocks[b := data]);
    forall i: nat | i < 8 * (off + bpb)
      ensures Bit(bytes', i) <==> i < used || i >= total
    {
      if i < 8 * off {
        assert bytes'[i / 8] == bytes[i / 8];
        assert Bit(bytes', i) <==> Bit(bytes, i);
      } else {
        var k := i - 8 * off;
        assert k / 8 == i / 8 - off && k % 8 == i % 8;
        assert bytes'[i / 8] == data[k / 8];
        assert Bit(bytes', i) <==> Bit(data, k);
      }
    }
  }

  class Bitmap {
    const bpb: nat                   // bytes to a block
    var blocks: seq<seq<bv8>>

    ghost predicate Valid()
      reads this
    {
      0 < bpb && Blocked(blocks, bpb)
    }

    ghost function Bytes(): seq<bv8>
      reads this
    {
      Flat(blocks)
    }

    constructor (bpb: nat, blocks: seq<seq<bv8>>)
      requires 0 < bpb && Blocked(blocks, bpb)
      ensures Valid() && this.bpb == bpb && this.blocks == blocks
    {
      this.bpb, this.blocks := bpb, blocks;
    }

    /** `set_bit_in_bitmap_range`. */
    method SetBit(valid: nat, idx: nat, on: bool) returns (err: Err)
      requires Valid()
      modifies this`blocks
      ensures Valid() && |blocks| == |old(blocks)|
      ensures err == Success <==> idx < valid && idx < 8 * |old(Bytes())|
      ensures err == Success || err == InvalidArgs
      ensures if err == Success then Sets(old(Bytes()), Bytes(), idx, on) else blocks == old(blocks)
    {
      assert |blocks| == 0 ==> Bytes() == [];
      hide Flat, Mask, BitOf, Bit, Sets, Quot, Rem, Begins, Updated;
      if |blocks| == 0 || idx >= valid {
        return InvalidArgs;
      }
      var bits := 8 * bpb;
      FlatBegins(blocks, bpb);
      ghost var off := Locate(idx, bpb, |blocks|, bits, |Bytes()|);
      var b := Quot(idx, bits);
      if b >= |blocks| {
        return InvalidArgs;
      }
      var bit := Rem(idx, bits);
      var y, k := bit / 8, bit % 8;
      var data := blocks[b];
      data := data[y := Updated(data[y], k, on)];
      WriteBack(b, off, y, k, on, data);
      blocks := blocks[b := data];
      err := Success;
    }

    /** A byte of a block changed in the buffer, written back. */
    lemma WriteBack(b: nat, off: nat, y: nat, k: nat, on: bool, data: seq<bv8>)
      requires Valid() && b < |blocks| && Begins(off, b, bpb) && y < bpb && k < 8 && |blocks[b]| == bpb
      requires data == blocks[b][y := Updated(blocks[b][y], k, on)]
      ensures Blocked(blocks[b := data], bpb) && Sets(Flat(blocks), Flat(blocks[b := data]), 8 * (off + y) + k, on)
    {
      hide Flat, Blocked, Mask, BitOf, Begins, Sets, Updated;
      BlockSlice(blocks, bpb, b, off);
      BlockPut(blocks, bpb, b, off, data);
      var bytes, bytes' := Flat(blocks), Flat(blocks[b := data]);
      SpliceByte(bytes, off, bpb, blocks[b], y, data, bytes');
      ByteSets(bytes, off + y, k, on, bytes');
    }

    /** `write_block_bitmap`: runs of whole blocks are filled, and the others are made bit by bit. */
    method Format(used: nat, total: nat)
      requires Valid()
      modifies this`blocks
      ensures Valid() && |blocks| == |old(blocks)| && Formatted(Bytes(), 8 * |Bytes()|, used, total)
    {
      hide Flat, Blocked, Formatted, Begins, BlockFormatted;
      BeginsFirst(bpb);
      NoneFormatted(Bytes(), used, total);
      var block, off: nat := 0, 0;
      while block < |blocks|
        invariant Valid() && |blocks| == |old(blocks)| && block <= |blocks| && Begins(off, block, bpb)
        invariant Formatted(Bytes(), 8 * off, used, total)
      {
        if Solid(8 * off, 8 * (off + bpb), used, total, 0xFF) {
          block, off := FillRun(block, off, used, total, 0xFF);
        } else if Solid(8 * off, 8 * (off + bpb), used, total, 0) {
          block, off := FillRun(block, off, used, total, 0);
        } else {
          var data := MixedBlock(8 * off, used, total);
          BlockWritten(blocks, bpb, block, off, data, used, total);
          blocks := blocks[block := data];
          BeginsNext(off, block, bpb);
          block, off := block + 1, off + bpb;
        }
      }
      PastBlocks(blocks, bpb, block, off);
    }

    /** The longest run of blocks from `block` on that are all `v`, filled. */
    method FillRun(block: nat, off: nat, used: nat, total: nat, v: bv8) returns (after: nat, offAfter: nat)
      requires Valid() && block < |blocks| && Begins(off, block, bpb) && (v == 0xFF || v == 0)
      requires Solid(8 * off, 8 * (off + bpb), used, total, v) && Formatted(Bytes(), 8 * off, used, total)
      modifies this`blocks
      ensures Valid() && |blocks| == |old(blocks)| && block < after <= |blocks| && Begins(offAfter, after, bpb)
      ensures Formatted(Bytes(), 8 * offAfter, used, total)
    {
      hide Flat, Blocked, Formatted, Begins, BlockFormatted, Solid;
      var run, o: nat := 1, off + bpb;
      BeginsNext(off, block, bpb);
      OneSolid(block, off, bpb, used, total, v);
      while block + run < |blocks| && Solid(8 * o, 8 * (o + bpb), used, total, v)
        invariant block + run <= |blocks| && Begins(o, block + run, bpb) && 0 < run && blocks == old(blocks)
        invariant AllSolid(block, run, bpb, used, total, v)
      {
        OneSolid(block + run, o, bpb, used, total, v);
        BeginsNext(o, block + run, bpb);
        run, o := run + 1, o + bpb;
      }
      after, offAfter := block, off;
      while after < block + run
        invariant Valid() && |blocks| == |old(blocks)| && block <= after <= block + run && Begins(offAfter, after, bpb)
        invariant Formatted(Bytes(), 8 * offAfter, used, total)
      {
        var data := seq(bpb, _ => v);
        SolidFormatted(data, 8 * offAfter, 8 * (offAfter + bpb), used, total, v);
        BlockWritten(blocks, bpb, after, offAfter, data, used, total);
        blocks := blocks[after := data];
        BeginsNext(offAfter, after, bpb);
        after, offAfter := after + 1, offAfter + bpb;
      }
    }

    /** A block bit by bit, from bit `first` on. */
    method MixedBlock(first: nat, used: nat, total: nat) returns (data: seq<bv8>)
      ensures |data| == bpb && BlockFormatted(data, first, used, total)
    {
      hide BitOf, Mask, Updated;
      data := seq(bpb, _ => 0);
      NoBits(data);
      for bit := 0 to 8 * bpb
        invariant |data| == bpb
        invariant forall i: nat {:trigger Bit(data, i)} :: i < 8 * bpb ==> (Bit(data, i) <==> i < bit && Marked(first + i, used, total))
      {
        if Marked(first + bit, used, total) {
          ghost var before := data;
          var y, k := bit / 8, bit % 8;
          data := data[y := Updated(data[y], k, true)];
          ByteSets(before, y, k, true, data);
        }
      }
    }

    /** `find_free_from_bitmap_range`: the lowest clear bit of the valid ones. */
    method FindFree(valid: nat, update: bool) returns (err: Err, free: nat)
      requires Valid()
      modifies this`blocks
      ensures Valid() && |blocks| == |old(blocks)|
      ensures err == InvalidArgs <==> |old(blocks)| == 0 || valid == 0
      ensures err == NoFreeBlocks <==> |old(blocks)| != 0 && valid != 0 && Full(old(Bytes()), valid)
      ensures err == Success ==> free < valid && free < 8 * |old(Bytes())| && !Bit(old(Bytes()), free) && Full(old(Bytes()), free)
      ensures if err == Success && update then Sets(old(Bytes()), Bytes(), free, true) else blocks == old(blocks)
    {
      hide Flat, Blocked, Full, Begins, Bit, Updated, Mask, Sets, BitOf;
      free := 0;
      if |blocks| == 0 || valid == 0 {
        return InvalidArgs, free;
      }
      Empty(Bytes());
      BeginsFirst(bpb);
      var b, off: nat := 0, 0;
      while b < |blocks|
        invariant b <= |blocks| && Begins(off, b, bpb) && blocks == old(blocks)
        invariant Full(Bytes(), Min(valid, 8 * off))
      {
        var data := blocks[b];
        BlockSlice(blocks, bpb, b, off);
        var first := 8 * off;
        var inBlock := if valid > first then valid - first else 0;
        if inBlock > 8 * bpb {
          inBlock := 8 * bpb;
        }
        var found, y, k := FindInBlock(b, off, data, inBlock, valid);
        if found {
          err, free := Success, first + 8 * y + k;
          NotFull(Bytes(), free, valid);
          if update {
            data := data[y := Updated(data[y], k, true)];
            WriteBack(b, off, y, k, true, data);
            blocks := blocks[b := data];
          }
          return;
        }
        BeginsNext(off, b, bpb);
        b, off := b + 1, off + bpb;
      }
      PastBlocks(blocks, bpb, b, off);
      AllFull(Bytes(), valid);
      err := NoFreeBlocks;
    }

    /** The search of one block. */
    method FindInBlock(b: nat, off: nat, data: seq<bv8>, inBlock: nat, valid: nat) returns (found: bool, y: nat, k: nat)
      requires Valid() && |data| == bpb && off + bpb <= |Bytes()| && Bytes()[off..off + bpb] == data
      requires inBlock == Min(if valid > 8 * off then valid - 8 * off else 0, 8 * bpb) && Full(Bytes(), Min(valid, 8 * off))
      ensures found ==> y < bpb && k < 8 && 8 * off + 8 * y + k < valid && !Bit(Bytes(), 8 * off + 8 * y + k) && Full(Bytes(), 8 * off + 8 * y + k)
      ensures !found ==> Full(Bytes(), Min(valid, 8 * (off + bpb)))
    {
      hide Flat, Blocked, Bit, Mask, BitOf;
      ghost var bytes := Bytes();
      var validBytes := (inBlock + 7) / 8;
      found, y, k := false, 0, 0;
      while y < validBytes
        invariant y <= validBytes && k <= 8 && !found
        invariant Full(bytes, Min(valid, 8 * (off + y)))
      {
        assert bytes[off + y] == data[y];
        if data[y] == 0xFF {
          FullByte(bytes, off + y, valid);
          y := y + 1;
          continue;
        }
        k := 0;
        while k < 8
          invariant k <= 8 && Full(bytes, Min(valid, 8 * (off + y) + k))
        {
          if 8 * y + k >= inBlock {
            break;
          }
          BitAt(bytes, off + y, k);
          if data[y] & Mask(k) == 0 {
            MaskBit(data[y], k);
            return true, y, k;
          }
          MaskBit(data[y], k);
          FullNext(bytes, 8 * (off + y) + k, valid);
          k := k + 1;
        }
        y := y + 1;
      }
    }
  }

  /** A slice in which one byte differs. */
  lemma SpliceByte(bytes: seq<bv8>, off: nat, n: nat, block: seq<bv8>, y: nat, data: seq<bv8>, bytes': seq<bv8>)
    requires off + n <= |bytes| && bytes[off..off + n] == block && |block| == n && y < n && |data| == n && data == block[y := data[y]]
    requires bytes' == bytes[..off] + data + bytes[off + n..]
    ensures bytes[off + y] == block[y] && bytes' == bytes[off + y := data[y]]
  {
    assert forall x :: 0 <= x < n ==> bytes[off + x] == block[x];
  }

  /** All bits below `n` that exist are set. */
  ghost predicate Full(bytes: seq<bv8>, n: nat) {
    forall i: nat {:trigger Bit(bytes, i)} :: i < n && i < 8 * |bytes| ==> Bit(bytes, i)
  }

  lemma NotFull(bytes: seq<bv8>, i: nat, n: nat)
    requires !Bit(bytes, i) && i < n && i < 8 * |bytes|
    ensures !Full(bytes, n)
  {
  }

  lemma Empty(bytes: seq<bv8>)
    ensures Full(bytes, 0)
  {
  }

  lemma BeginsFirst(per: nat)
    ensures Begins(0, 0, per)
  {
  }

  lemma FullNext(bytes: seq<bv8>, n: nat, valid: nat)
    requires Full(bytes, Min(valid, n)) && Bit(bytes, n)
    ensures Full(bytes, Min(valid, n + 1))
  {
    hide Bit;
  }

  lemma FullByte(bytes: seq<bv8>, y: nat, valid: nat)
    requires y < |bytes| && bytes[y] == 0xFF && Full(bytes, Min(valid, 8 * y))
    ensures Full(bytes, Min(valid, 8 * (y + 1)))
  {
    forall i: nat | 8 * y <= i < 8 * (y + 1)
      ensures Bit(bytes, i)
    {
      AllOnes(i - 8 * y);
      BitAt(bytes, y, i - 8 * y);
    }
  }

  lemma AllFull(bytes: seq<bv8>, valid: nat)
    requires Full(bytes, Min(valid, 8 * |bytes|))
    ensures Full(bytes, valid)
  {
  }

  lemma FlatBegins(blocks: seq<seq<bv8>>, bpb: nat)
    requires Blocked(blocks, bpb)
    ensures Begins(|Flat(blocks)|, |blocks|, bpb)
  {
    FlatSize(blocks, bpb);
  }

  /** The block, byte and bit of an index, and where the block begins. */
  lemma Locate(idx: nat, bpb: nat, count: nat, w: nat, size: nat) returns (off: nat)
    requires 0 < bpb && w == 8 * bpb && Begins(size, count, bpb)
    ensures Quot(idx, w) < count <==> idx < 8 * size
    ensures Begins(off, Quot(idx, w), bpb)
    ensures var bit := Rem(idx, w); bit / 8 < bpb && bit % 8 < 8 && idx == 8 * (off + bit / 8) + bit % 8
  {
    var b, bit := Quot(idx, w), Rem(idx, w);
    off := b * bpb;
    assert idx == b * w + bit && bit < w;
    MulOrder(b, count, w);
    Eight(b, bpb, w);
    Eight(count, bpb, w);
  }

  lemma Eight(b: nat, bpb: nat, w: nat)
    requires w == 8 * bpb
    ensures b * w == 8 * (b * bpb)
  {
  }
}
