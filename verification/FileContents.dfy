/** The bytes of a file as its blocks hold them, and what writing and reading do to them, as values
(`kernel/fs/kapi.c`). */
module FileContents {
  import opened Arithmetic
  import opened Common
  import opened InodePath

  /** The first `size` bytes of the blocks, in order; `bpb` bytes to a block. */
  ghost function Content(bytes: seq<seq<Byte>>, blocks: seq<nat>, bpb: nat, size: nat): seq<Byte>
    requires Held(bytes, blocks, bpb, size)
  {
    seq(size, j requires 0 <= j < size => ByteAt(bytes, blocks, bpb, size, j))
  }

  /** The contents of a file whose blocks are held; nothing is said of others. */
  ghost function Text(bytes: seq<seq<Byte>>, blocks: seq<nat>, bpb: nat, size: nat): seq<Byte> {
    if Held(bytes, blocks, bpb, size) then Content(bytes, blocks, bpb, size) else []
  }

  ghost predicate Held(bytes: seq<seq<Byte>>, blocks: seq<nat>, bpb: nat, size: nat) {
    && 0 < bpb && size <= |blocks| * bpb
    && (forall b :: 0 <= b < |bytes| ==> |bytes[b]| == bpb)
    && (forall i :: 0 <= i < |blocks| ==> blocks[i] < |bytes|)
  }

  ghost function ByteAt(bytes: seq<seq<Byte>>, blocks: seq<nat>, bpb: nat, size: nat, j: nat): Byte
    requires Held(bytes, blocks, bpb, size) && j < size
  {
    DivRange(j, bpb, |blocks|);
    bytes[blocks[Quot(j, bpb)]][Rem(j, bpb)]
  }

  /** `f` with `piece` at `off`, replacing or extending. */
  function Splice(f: seq<Byte>, off: nat, piece: seq<Byte>): seq<Byte>
    requires off <= |f|
  {
    f[..off] + piece + (if off + |piece| <= |f| then f[off + |piece|..] else [])
  }

  /** Byte by byte: the piece from `off` on, and the rest as it was. */
  lemma SpliceBytes(f: seq<Byte>, off: nat, piece: seq<Byte>)
    requires off <= |f|
    ensures var g := Splice(f, off, piece);
            && |g| == (if |f| <= off + |piece| then off + |piece| else |f|)
            && forall i :: 0 <= i < |g| ==> g[i] == if off <= i < off + |piece| then piece[i - off] else f[i]
  {
  }

  lemma SpliceTwice(f: seq<Byte>, off: nat, a: seq<Byte>, b: seq<Byte>)
    requires off <= |f|
    ensures off + |a| <= |Splice(f, off, a)| && Splice(Splice(f, off, a), off + |a|, b) == Splice(f, off, a + b)
  {
  }

  /** Position `q * bpb + r` is byte `r` of block `q`. */
  lemma Position(q: nat, r: nat, bpb: nat, j: nat)
    requires 0 < bpb && r < bpb
    ensures j == q * bpb + r <==> Quot(j, bpb) == q && Rem(j, bpb) == r
  {
    DivUnique(bpb, q, r);
    assert j == j / bpb * bpb + j % bpb;
  }

  /** Writing a piece into block `q` at offset `r` is writing it into the file at `q * bpb + r`. */
  lemma ChunkWritten(bytes: seq<seq<Byte>>, blocks: seq<nat>, bpb: nat, size: nat, q: nat, r: nat, piece: seq<Byte>, bytes': seq<seq<Byte>>, size': nat)
    requires Held(bytes, blocks, bpb, size) && NoDup(blocks) && q < |blocks| && r + |piece| <= bpb && r < bpb
    requires q * bpb + r <= size && size' == if size < q * bpb + r + |piece| then q * bpb + r + |piece| else size
    requires bytes' == bytes[blocks[q] := Splice(bytes[blocks[q]], r, piece)]
    ensures Held(bytes', blocks, bpb, size')
    ensures Content(bytes', blocks, bpb, size') == Splice(Content(bytes, blocks, bpb, size), q * bpb + r, piece)
  {
    var off := q * bpb + r;
    assert size' <= |blocks| * bpb by {
      MulOrder(q, |blocks|, bpb);
    }
    assert |bytes'[blocks[q]]| == bpb;
    var f, f' := Content(bytes, blocks, bpb, size), Content(bytes', blocks, bpb, size');
    assert |Splice(f, off, piece)| == size';
    forall j | 0 <= j < size'
      ensures f'[j] == Splice(f, off, piece)[j]
    {
      WrittenByte(bytes, blocks, bpb, size, q, r, piece, bytes', size', j);
    }
  }

  lemma WrittenByte(bytes: seq<seq<Byte>>, blocks: seq<nat>, bpb: nat, size: nat, q: nat, r: nat, piece: seq<Byte>,
                    bytes': seq<seq<Byte>>, size': nat, j: nat)
    requires Held(bytes, blocks, bpb, size) && NoDup(blocks) && q < |blocks| && r + |piece| <= bpb && r < bpb
    requires q * bpb + r <= size && size' == if size < q * bpb + r + |piece| then q * bpb + r + |piece| else size
    requires bytes' == bytes[blocks[q] := Splice(bytes[blocks[q]], r, piece)] && Held(bytes', blocks, bpb, size') && j < size'
    ensures ByteAt(bytes', blocks, bpb, size', j) == Splice(Content(bytes, blocks, bpb, size), q * bpb + r, piece)[j]
  {
    hide Quot, Rem;
    var off := q * bpb + r;
    var a, b := Quot(j, bpb), Rem(j, bpb);
    DivRange(j, bpb, |blocks|);
    Within(j, q, r, |piece|, bpb, off);
    assert a != q ==> blocks[a] != blocks[q];
    if a == q && r <= b < r + |piece| {
      assert bytes'[blocks[a]][b] == piece[b - r];
    } else {
      assert bytes'[blocks[a]][b] == bytes[blocks[a]][b];
    }
  }

  /** A byte is within a piece that lies in one block iff it is in that block, within the piece. */
  lemma Within(j: nat, q: nat, r: nat, len: nat, bpb: nat, off: nat)
    requires 0 < bpb && r + len <= bpb && off == q * bpb + r
    ensures off <= j < off + len <==> Quot(j, bpb) == q && r <= Rem(j, bpb) < r + len
    ensures Quot(j, bpb) == q ==> j - off == Rem(j, bpb) - r
  {
    var a, b := Quot(j, bpb), Rem(j, bpb);
    assert j == a * bpb + b && b < bpb;
    hide Quot, Rem;
    MulOrder(a, q, bpb);
  }

  /** A block added at the end is not seen until it is written. */
  lemma BlockAdded(bytes: seq<seq<Byte>>, blocks: seq<nat>, bpb: nat, size: nat, b: nat)
    requires Held(bytes, blocks, bpb, size) && b < |bytes|
    ensures Held(bytes, blocks + [b], bpb, size) && Content(bytes, blocks + [b], bpb, size) == Content(bytes, blocks, bpb, size)
  {
    assert |blocks| * bpb <= (|blocks| + 1) * bpb by { MulOrder(|blocks|, |blocks| + 1, bpb); }
    forall j | 0 <= j < size
      ensures ByteAt(bytes, blocks + [b], bpb, size, j) == ByteAt(bytes, blocks, bpb, size, j)
    {
      DivRange(j, bpb, |blocks|);
    }
  }

  /** Writing to a block outside a file does not change it. */
  lemma ElsewhereWritten(bytes: seq<seq<Byte>>, blocks: seq<nat>, bpb: nat, size: nat, b: nat, block: seq<Byte>)
    requires Held(bytes, blocks, bpb, size) && b < |bytes| && |block| == bpb && b !in blocks
    ensures Held(bytes[b := block], blocks, bpb, size) && Content(bytes[b := block], blocks, bpb, size) == Content(bytes, blocks, bpb, size)
  {
    forall j | 0 <= j < size
      ensures ByteAt(bytes[b := block], blocks, bpb, size, j) == ByteAt(bytes, blocks, bpb, size, j)
    {
      DivRange(j, bpb, |blocks|);
    }
  }

  /** A piece of a file that lies in one block. */
  lemma ChunkRead(bytes: seq<seq<Byte>>, blocks: seq<nat>, bpb: nat, size: nat, q: nat, r: nat, off: nat, m: nat)
    requires Held(bytes, blocks, bpb, size) && q < |blocks| && r + m <= bpb && r < bpb && off == q * bpb + r && off + m <= size
    ensures Content(bytes, blocks, bpb, size)[off..off + m] == bytes[blocks[q]][r..r + m]
  {
    hide Quot, Rem;
    var f, block := Content(bytes, blocks, bpb, size), bytes[blocks[q]];
    forall j | off <= j < off + m
      ensures f[j] == block[j - off + r]
    {
      Position(q, j - off + r, bpb, j);
    }
    assert f[off..off + m] == block[r..r + m];
  }

  // ---------------------------------------------------------------------------
  // Reading
  // ---------------------------------------------------------------------------

  /** What `default_read` leaves in the buffer: each block's part goes to the start of the buffer, over the part before it. */
  function Overlaid(f: seq<Byte>, off: nat, m: nat, bpb: nat, buf: seq<Byte>): (r: seq<Byte>)
    requires 0 < bpb && off + m <= |f| && m <= |buf|
    ensures |r| == |buf|
    decreases m
  {
    var c := bpb - Rem(off, bpb);
    if m <= c then f[off..off + m] + buf[m..]
    else Overlaid(f, off + c, m - c, bpb, f[off..off + c] + buf[c..])
  }

  /** The bytes arrive as they are in the file. */
  ghost predicate Arrives(f: seq<Byte>, off: nat, m: nat, bpb: nat, buf: seq<Byte>)
    requires 0 < bpb && off + m <= |f| && m <= |buf|
  {
    Overlaid(f, off, m, bpb, buf)[..m] == f[off..off + m]
  }

  /** A read is right for every file and buffer exactly when it stays within one block. */
  lemma ReadExact(off: nat, m: nat, bpb: nat)
    requires 0 < bpb
    ensures (forall f: seq<Byte>, buf: seq<Byte> | off + m <= |f| && m <= |buf| :: Arrives(f, off, m, bpb, buf)) <==> m <= bpb - Rem(off, bpb)
  {
    var c := bpb - Rem(off, bpb);
    if m > c {
      // a file of zeros whose last byte is one
      var f: seq<Byte> := seq(off + m, j => if j == off + m - 1 then 1 else 0);
      var buf: seq<Byte> := seq(m, _ => 0);
      var last := LastPart(f, off, m, bpb, buf);
      assert Overlaid(f, off, m, bpb, buf)[last - 1] == f[off + m - 1] == 1;
      assert f[off..off + m][last - 1] == f[off + last - 1] == 0;
      assert !Arrives(f, off, m, bpb, buf);
    }
  }

  /** The start of the buffer holds the part of the last block, which is shorter than the whole if there are several. */
  lemma {:induction false} LastPart(f: seq<Byte>, off: nat, m: nat, bpb: nat, buf: seq<Byte>) returns (last: nat)
    requires 0 < bpb && 0 < m && off + m <= |f| && m <= |buf|
    ensures 0 < last <= m && Overlaid(f, off, m, bpb, buf)[..last] == f[off + m - last..off + m]
    ensures m > bpb - Rem(off, bpb) ==> last < m
    decreases m
  {
    var c := bpb - Rem(off, bpb);
    if m <= c {
      last := m;
    } else {
      last := LastPart(f, off + c, m - c, bpb, f[off..off + c] + buf[c..]);
    }
  }

  /** Reading back a part of what was written, within a block, gives that part; the rest of the file is as it was. */
  lemma WrittenIsRead(f: seq<Byte>, off: nat, piece: seq<Byte>, at: nat, m: nat, bpb: nat, buf: seq<Byte>)
    requires 0 < bpb && off <= |f| && at + m <= |piece| && m <= |buf| && m <= bpb - Rem(off + at, bpb)
    ensures off + at + m <= |Splice(f, off, piece)|
    ensures Overlaid(Splice(f, off, piece), off + at, m, bpb, buf)[..m] == piece[at..at + m]
    ensures Splice(f, off, piece)[..off] == f[..off]
    ensures off + |piece| <= |f| ==> Splice(f, off, piece)[off + |piece|..] == f[off + |piece|..]
  {
    hide Rem;
    var g := Splice(f, off, piece);
    assert g[off + at..off + at + m] == piece[at..at + m];
  }
}
