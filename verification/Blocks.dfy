/** A run of blocks of equal length, seen as one sequence. */
module Blocks {
  import opened Arithmetic
  import opened InodePath

  ghost predicate Blocked<T>(blocks: seq<seq<T>>, per: nat) {
    forall b :: 0 <= b < |blocks| ==> |blocks[b]| == per
  }

  /** The slots of all blocks in order. */
  ghost function Flat<T>(blocks: seq<seq<T>>): seq<T> {
    if blocks == [] then [] else Flat(blocks[..|blocks| - 1]) + blocks[|blocks| - 1]
  }

  lemma {:induction false} FlatAt<T>(blocks: seq<seq<T>>, per: nat, b: nat, i: nat)
    requires Blocked(blocks, per) && b < |blocks| && i < per
    ensures |Flat(blocks)| == |blocks| * per && b * per + i < |Flat(blocks)| && Flat(blocks)[b * per + i] == blocks[b][i]
    decreases |blocks|
  {
    var most := blocks[..|blocks| - 1];
    FlatSize(most, per);
    FlatSize(blocks, per);
    MulOrder(b, |blocks|, per);
    if b < |blocks| - 1 {
      FlatAt(most, per, b, i);
    }
  }

  lemma {:induction false} FlatSize<T>(blocks: seq<seq<T>>, per: nat)
    requires Blocked(blocks, per)
    ensures |Flat(blocks)| == |blocks| * per
  {
    if blocks != [] {
      FlatSize(blocks[..|blocks| - 1], per);
      assert |blocks| * per == (|blocks| - 1) * per + per;
    }
  }

  /** Block `b` begins at slot `off`. */
  ghost predicate Begins(off: nat, b: nat, per: nat) {
    off == b * per
  }

  lemma BeginsNext(off: nat, b: nat, per: nat)
    requires Begins(off, b, per)
    ensures Begins(off + per, b + 1, per)
  {
  }

  /** A block is a slice of the sequence... */
  lemma BlockSlice<T>(blocks: seq<seq<T>>, per: nat, b: nat, off: nat)
    requires Blocked(blocks, per) && b < |blocks| && Begins(off, b, per)
    ensures off + per <= |Flat(blocks)| && Flat(blocks)[off..off + per] == blocks[b]
  {
    FlatSize(blocks, per);
    MulOrder(b, |blocks|, per);
    forall i | 0 <= i < per
      ensures Flat(blocks)[off..off + per][i] == blocks[b][i]
    {
      FlatAt(blocks, per, b, i);
    }
  }

  /** ...and writing it replaces that slice. */
  lemma {:induction false} BlockPut<T>(blocks: seq<seq<T>>, per: nat, b: nat, off: nat, block: seq<T>)
    requires Blocked(blocks, per) && b < |blocks| && Begins(off, b, per) && |block| == per
    ensures Blocked(blocks[b := block], per) && off + per <= |Flat(blocks)|
    ensures Flat(blocks[b := block]) == Flat(blocks)[..off] + block + Flat(blocks)[off + per..]
    decreases |blocks|
  {
    var most, blocks' := blocks[..|blocks| - 1], blocks[b := block];
    FlatSize(most, per);
    if b == |blocks| - 1 {
      assert blocks'[..|blocks| - 1] == most;
      assert |Flat(most)| == off;
    } else {
      BlockPut(most, per, b, off, block);
      assert blocks'[..|blocks| - 1] == most[b := block];
    }
  }

  /** Past the last block there is nothing. */
  lemma PastBlocks<T>(blocks: seq<seq<T>>, per: nat, b: nat, off: nat)
    requires Blocked(blocks, per) && Begins(off, b, per)
    ensures b < |blocks| ==> off + per <= |Flat(blocks)|
    ensures |blocks| <= b ==> |Flat(blocks)| <= off
    ensures b == |blocks| ==> off == |Flat(blocks)|
  {
    FlatSize(blocks, per);
    MulOrder(b, |blocks|, per);
    MulOrder(|blocks|, b, per);
  }
}
