/** Reading and writing regular files (`kernel/fs/kapi.c`: `default_read`, `default_write`) on top of the block allocator:
the bytes of data blocks beside the pointer trees. */
module FileStores {
  import opened Arithmetic
  import opened Common
  import opened InodePath
  import opened InodeTree
  import opened Inodes
  import opened InodeTheorems
  import opened FileContents

  class FileStore {
    const fs: FileSystem
    const bpb: nat                       // bytes to a block
    var bytes: seq<seq<Byte>>
    var sizes: map<nat, nat>             // `i_size`

    ghost predicate Valid()
      reads this, fs, fs.bm
    {
      fs.Valid() && Stored()
    }

    ghost predicate Stored()
      reads this, fs, fs.bm
    {
      && 0 < bpb && |bytes| == fs.total
      && (forall b :: 0 <= b < |bytes| ==> |bytes[b]| == bpb)
      && (forall id :: id in fs.inodes ==> id in sizes && sizes[id] <= fs.inodes[id].count * bpb)
    }

    /** A store on `fs` where every file is empty; the blocks hold anything. */
    constructor (fs: FileSystem, bpb: nat, bytes: seq<seq<Byte>>)
      requires fs.Valid() && 0 < bpb && |bytes| == fs.total && forall b :: 0 <= b < |bytes| ==> |bytes[b]| == bpb
      ensures this.fs == fs && this.bpb == bpb && Valid() && forall id :: id in fs.inodes ==> sizes[id] == 0 && Contents(id) == []
    {
      this.fs, this.bpb, this.bytes := fs, bpb, bytes;
      sizes := map id | id in fs.inodes :: 0;
    }

    /** A file's blocks are distinct blocks of the disk, enough for its size. */
    lemma FileHeld(id: nat)
      requires Valid() && id in fs.inodes
      ensures Held(bytes, fs.File(id), bpb, sizes[id]) && NoDup(fs.File(id))
    {
      forall i | 0 <= i < |fs.File(id)|
        ensures fs.File(id)[i] < fs.total
      {
        BlocksDistinct(fs.s, fs.total, fs.first, fs.disk, fs.bits, fs.inodes, fs.owner, id, i, id, i);
      }
      forall i, k | 0 <= i < k < |fs.File(id)|
        ensures fs.File(id)[i] != fs.File(id)[k]
      {
        BlocksDistinct(fs.s, fs.total, fs.first, fs.disk, fs.bits, fs.inodes, fs.owner, id, i, id, k);
      }
    }

    /** The bytes of a file. */
    ghost function Contents(id: nat): seq<Byte>
      requires 0 < fs.s && id in fs.inodes && id in sizes
      reads this, fs, fs.bm
    {
      Text(bytes, fs.File(id), bpb, sizes[id])
    }

    /** Block `i` of a file, which is taken from the free blocks if the file ends there. */
    method BlockFor(id: nat, i: nat) returns (err: Err, b: nat)
      requires Valid() && id in fs.inodes && i <= fs.inodes[id].count && i <= DIRECT + 2 * fs.s && (i == fs.inodes[id].count || i < DIRECT + 2 * fs.s)
      modifies fs`disk, fs`bits, fs.bm`blocks, fs`inodes, fs`owner
      ensures Valid() && fs.inodes.Keys == old(fs.inodes).Keys
      ensures forall j :: j in fs.inodes ==> Contents(j) == old(Contents(j))
      ensures err == Success ==> i < fs.inodes[id].count && b == fs.File(id)[i]
      ensures fs.inodes[id].count == if err == Success && i == old(fs.inodes)[id].count then i + 1 else old(fs.inodes)[id].count
      ensures err == Success || (i == old(fs.inodes)[id].count && FreeCount(old(fs.bits)) < Needed(fs.s, i))
      ensures err != Success ==> err == NoFreeBlocks && FreeCount(fs.bits) == 0
      ensures err == Success ==> FreeCount(fs.bits) == FreeCount(old(fs.bits)) - if i == old(fs.inodes)[id].count then Needed(fs.s, i) else 0
    {
      assert 4 <= fs.s;
      if i < fs.inodes[id].count {
        LookupExact(fs.s, fs.total, fs.first, fs.disk, fs.bits, fs.inodes, fs.owner, id, i);
        var found := Lookup(fs.s, fs.disk, fs.inodes[id], i);
        return Success, found.b;
      }
      BelowCapacity(fs.s);
      FileHeld(id);
      err, b := fs.Append(id);
      if err == Success {
        Extended(id, old(fs.disk), old(fs.inodes), b);
      }
    }

    /** A file one block longer has the contents it had. */
    lemma Extended(id: nat, disk0: Disk, inodes0: map<nat, Inode>, b: nat)
      requires fs.Valid() && 0 < bpb && |bytes| == fs.total && id in inodes0 && id in fs.inodes && id in sizes
      requires fs.File(id) == Blocks(fs.s, disk0, inodes0[id]) + [b] && Held(bytes, Blocks(fs.s, disk0, inodes0[id]), bpb, sizes[id])
      ensures sizes[id] <= fs.inodes[id].count * bpb
      ensures Contents(id) == Text(bytes, Blocks(fs.s, disk0, inodes0[id]), bpb, sizes[id])
    {
      var n := inodes0[id].count;
      BlocksDistinct(fs.s, fs.total, fs.first, fs.disk, fs.bits, fs.inodes, fs.owner, id, n, id, n);
      assert b == fs.File(id)[n];
      BlockAdded(bytes, Blocks(fs.s, disk0, inodes0[id]), bpb, sizes[id], b);
    }

    /** One round of `default_write`: part of a block goes through a copy of it, a whole block directly. */
    method PutPiece(id: nat, q: nat, b: nat, r: nat, off: nat, piece: seq<Byte>)
      requires Valid() && id in fs.inodes && q < fs.inodes[id].count && b == fs.File(id)[q]
      requires r < bpb && r + |piece| <= bpb && AtByte(off, q, r, bpb) && off <= sizes[id] && off <= |Contents(id)|
      modifies this`bytes, this`sizes
      ensures Valid() && sizes == old(sizes)[id := sizes[id]] && sizes[id] == |Contents(id)|
      ensures Contents(id) == Splice(old(Contents(id)), off, piece)
      ensures forall j :: j in fs.inodes && j != id ==> Contents(j) == old(Contents(j))
    {
      hide Inv, Held, Content, Text, Splice, AtByte;
      BlockIs(id, q);
      WholePiece(bytes[b], r, piece, bpb);
      var block := if |piece| < bpb then Splice(bytes[b], r, piece) else piece;
      var end := off + |piece|;
      ghost var size' := if sizes[id] < end then end else sizes[id];
      PieceWritten(id, q, r, off, piece, block, size');
      forall j | j in fs.inodes && j != id
        ensures Text(bytes[b := block], fs.File(j), bpb, sizes[j]) == Contents(j)
      {
        OutsideFile(id, q, j, block);
      }
      bytes := bytes[b := block];
      if end > sizes[id] {
        sizes := sizes[id := end];
      }
    }

    lemma BlockIs(id: nat, q: nat)
      requires Valid() && id in fs.inodes && q < fs.inodes[id].count
      ensures 0 < fs.s && fs.File(id)[q] < |bytes| && |bytes[fs.File(id)[q]]| == bpb
    {
      FileHeld(id);
    }

    lemma PieceWritten(id: nat, q: nat, r: nat, off: nat, piece: seq<Byte>, block: seq<Byte>, size': nat)
      requires Valid() && id in fs.inodes && q < fs.inodes[id].count && fs.File(id)[q] < |bytes|
      requires r < bpb && r + |piece| <= bpb && AtByte(off, q, r, bpb) && off <= sizes[id] && off <= |Contents(id)|
      requires r <= |bytes[fs.File(id)[q]]| && block == Splice(bytes[fs.File(id)[q]], r, piece)
      requires size' == if sizes[id] < off + |piece| then off + |piece| else sizes[id]
      ensures |block| == bpb && size' <= fs.inodes[id].count * bpb
      ensures Text(bytes[fs.File(id)[q] := block], fs.File(id), bpb, size') == Splice(Contents(id), off, piece)
      ensures |Splice(Contents(id), off, piece)| == size'
    {
      FileHeld(id);
      ChunkWritten(bytes, fs.File(id), bpb, sizes[id], q, r, piece, bytes[fs.File(id)[q] := block], size');
    }

    lemma OutsideFile(id: nat, q: nat, j: nat, block: seq<Byte>)
      requires Valid() && id in fs.inodes && j in fs.inodes && j != id && q < fs.inodes[id].count && |block| == bpb
      ensures fs.File(id)[q] < |bytes| && Text(bytes[fs.File(id)[q] := block], fs.File(j), bpb, sizes[j]) == Contents(j)
    {
      FileHeld(id);
      FileHeld(j);
      forall i | 0 <= i < |fs.File(j)|
        ensures fs.File(j)[i] != fs.File(id)[q]
      {
        BlocksDistinct(fs.s, fs.total, fs.first, fs.disk, fs.bits, fs.inodes, fs.owner, id, q, j, i);
      }
      ElsewhereWritten(bytes, fs.File(j), bpb, sizes[j], fs.File(id)[q], block);
    }

    /** `default_write`, for a cursor within the file or in append mode, and a file that lookup can follow.  The bytes
        replace or extend those at the offset; on failure a prefix of them does, and no block is left free.  It succeeds
        exactly if the free blocks suffice for all that it appends, and otherwise stops at the first that they do not. */
    method Write(id: nat, cursor: nat, append: bool, buf: seq<Byte>) returns (err: Err, done: nat, cursor': nat)
      requires Valid() && id in fs.inodes && (append || cursor <= sizes[id])
      requires Fits(if append then sizes[id] else cursor, |buf|, bpb, fs.inodes[id].count, DIRECT + 2 * fs.s)
      modifies this`bytes, this`sizes, fs`disk, fs`bits, fs.bm`blocks, fs`inodes, fs`owner
      ensures Valid() && fs.inodes.Keys == old(fs.inodes).Keys
      ensures done <= |buf| && (err == Success ==> done == |buf|)
      ensures err != Success ==> err == NoFreeBlocks && FreeCount(fs.bits) == 0
      ensures var off := if append then old(sizes)[id] else cursor;
              && off <= |old(Contents(id))| && Contents(id) == Splice(old(Contents(id)), off, buf[..done])
              && cursor' == (if done == 0 then cursor else off + done)
              && Paid(fs.s, old(fs.inodes)[id].count, FreeCount(old(fs.bits)), off, |buf|, bpb, err == Success, done)
      ensures forall j :: j in fs.inodes && j != id ==> Contents(j) == old(Contents(j))
    {
      hide Inv, Stored, Held, Content, Text, Splice, Quot, Rem, AtByte, Near, Fits, Paid, Spent, FreeCount, Needed;
      Basics(id);
      var off := if append then sizes[id] else cursor;
      ghost var f := Contents(id);
      ghost var texts := map j | j in fs.inodes && j in sizes :: Contents(j);
      Start(off, bpb, sizes[id], fs.inodes[id].count);
      SpliceNothing(f, off, buf);
      var q: nat, r: nat := Quot(off, bpb), Rem(off, bpb);
      done, cursor' := 0, cursor;
      var b: nat;
      ghost var count, free := fs.inodes[id].count, FreeCount(fs.bits);
      SpentNone(fs.s, count, free);
      FirstWithin(off, |buf|, q, r, bpb, count, DIRECT + 2 * fs.s);
      err, b := BlockFor(id, q);
      if err != Success {
        FirstShort(fs.s, count, free, off, |buf|, q, r, bpb, sizes[id]);
        return;
      }
      if q == count {
        SpentNext(fs.s, count, free, count, free, FreeCount(fs.bits));
      }
      FirstBlock(off, |buf|, q, r, bpb, count, fs.inodes[id].count, DIRECT + 2 * fs.s);
      err, done := WriteOn(id, off, buf, q, r, b, f, texts, count, free);
      if 0 < done {
        cursor' := off + done;
      }
    }

    /** The other files have contents `texts`. */
    ghost predicate Texts(texts: map<nat, seq<Byte>>, id: nat)
      requires 0 < fs.s
      reads this, fs, fs.bm
    {
      forall j :: j in fs.inodes && j in sizes && j != id ==> j in texts && Contents(j) == texts[j]
    }

    /** The first `done` bytes of `buf` are in file `id`, which was `f`, and the other files are as they were. */
    ghost predicate Wrote(id: nat, off: nat, buf: seq<Byte>, done: nat, f: seq<Byte>, texts: map<nat, seq<Byte>>)
      reads this, fs, fs.bm
    {
      && Valid() && 0 < fs.s && id in fs.inodes && id in sizes && off <= |f| && done <= |buf|
      && |Contents(id)| == sizes[id] && off + done <= sizes[id] && Contents(id) == Splice(f, off, buf[..done]) && Texts(texts, id)
    }

    /** The loop of `default_write`. */
    method WriteOn(id: nat, off: nat, buf: seq<Byte>, q0: nat, r0: nat, b0: nat,
                   ghost f: seq<Byte>, ghost texts: map<nat, seq<Byte>>, ghost count0: nat, ghost free0: nat)
      returns (err: Err, done: nat)
      requires Wrote(id, off, buf, 0, f, texts) && 0 < fs.s && id in fs.inodes
      requires q0 < fs.inodes[id].count && b0 == fs.File(id)[q0] && r0 < bpb
      requires Near(off, 0, |buf|, q0, r0, bpb, fs.inodes[id].count, DIRECT + 2 * fs.s) && Spends(id, count0, free0, q0)
      modifies this`bytes, this`sizes, fs`disk, fs`bits, fs.bm`blocks, fs`inodes, fs`owner
      ensures Wrote(id, off, buf, done, f, texts) && fs.inodes.Keys == old(fs.inodes).Keys && sizes.Keys == old(sizes).Keys
      ensures done <= |buf| && (err == Success ==> done == |buf|)
      ensures err != Success ==> err == NoFreeBlocks && FreeCount(fs.bits) == 0
      ensures Paid(fs.s, count0, free0, off, |buf|, bpb, err == Success, done)
    {
      hide Inv, Wrote, Quot, Rem, AtByte, Near, Paid, Spends, StopsAt, FreeCount;
      var q: nat, r: nat, b: nat := q0, r0, b0;
      err, done := Success, 0;
      if buf == [] {
        AllPaid(id, count0, free0, off, 0, 0, q0, r0, 0);
        return;
      }
      var m: nat := if |buf| < bpb - r then |buf| else bpb - r;
      while true
        invariant Wrote(id, off, buf, done, f, texts) && fs.inodes.Keys == old(fs.inodes).Keys && sizes.Keys == old(sizes).Keys
        invariant done < |buf| && id in fs.inodes && q < fs.inodes[id].count && b == fs.File(id)[q] && r < bpb && err == Success
        invariant m == if |buf| - done < bpb - r then |buf| - done else bpb - r
        invariant Near(off, done, |buf|, q, r, bpb, fs.inodes[id].count, DIRECT + 2 * fs.s) && Spends(id, count0, free0, q)
        decreases |buf| - done
      {
        PutNext(id, q, b, r, off, buf, done, m, f, texts);
        done := done + m;
        if done == |buf| {
          AllPaid(id, count0, free0, off, done - m, |buf|, q, r, m);
          return;
        }
        NextBlock(off, done - m, |buf|, q, r, m, bpb, fs.inodes[id].count, DIRECT + 2 * fs.s);
        err, b := NextFor(id, q + 1, off, buf, done, f, texts, count0, free0);
        if err != Success {
          PaidShort(fs.s, count0, free0, off, done, |buf|, q + 1, bpb);
          return;
        }
        q, r := q + 1, 0;
        m := if |buf| - done < bpb then |buf| - done else bpb;
      }
    }

    method PutNext(id: nat, q: nat, b: nat, r: nat, off: nat, buf: seq<Byte>, done: nat, m: nat,
                   ghost f: seq<Byte>, ghost texts: map<nat, seq<Byte>>)
      requires Wrote(id, off, buf, done, f, texts) && 0 < fs.s && id in fs.inodes && q < fs.inodes[id].count && b == fs.File(id)[q]
      requires r + m <= bpb && done + m <= |buf| && Near(off, done, |buf|, q, r, bpb, fs.inodes[id].count, DIRECT + 2 * fs.s)
      modifies this`bytes, this`sizes
      ensures Wrote(id, off, buf, done + m, f, texts) && sizes.Keys == old(sizes).Keys
    {
      hide Inv, Held, Content, Text, Splice, AtByte, Stored;
      SpliceNext(f, off, buf, done, m);
      PutPiece(id, q, b, r, off + done, buf[done..done + m]);
    }

    method NextFor(id: nat, i: nat, ghost off: nat, ghost buf: seq<Byte>, ghost done: nat,
                   ghost f: seq<Byte>, ghost texts: map<nat, seq<Byte>>, ghost count0: nat, ghost free0: nat)
      returns (err: Err, b: nat)
      requires Wrote(id, off, buf, done, f, texts) && id in fs.inodes && i <= fs.inodes[id].count && i < DIRECT + 2 * fs.s
      requires 0 < i && Spends(id, count0, free0, i - 1)
      modifies fs`disk, fs`bits, fs.bm`blocks, fs`inodes, fs`owner
      ensures Wrote(id, off, buf, done, f, texts) && fs.inodes.Keys == old(fs.inodes).Keys && 0 < fs.s
      ensures err == Success ==> i < fs.inodes[id].count && b == fs.File(id)[i] && Spends(id, count0, free0, i)
      ensures fs.inodes[id].count == if err == Success && i == old(fs.inodes)[id].count then i + 1 else old(fs.inodes)[id].count
      ensures err != Success ==> err == NoFreeBlocks && FreeCount(fs.bits) == 0 && StopsAt(fs.s, count0, free0, i)
    {
      hide Inv, Held, Content, Text, Splice, Spent, StopsAt, FreeCount, Needed;
      ghost var free := FreeCount(fs.bits);
      err, b := BlockFor(id, i);
      if err != Success {
        SpentShort(fs.s, count0, free0, i, free);
      } else if i == old(fs.inodes)[id].count {
        SpentNext(fs.s, count0, free0, i, free, FreeCount(fs.bits));
      }
    }

    /** The file has grown from `count0` blocks, to take in block `q`, at the expense of `free0` free ones. */
    ghost predicate Spends(id: nat, count0: nat, free0: nat, q: nat)
      reads fs
    {
      && id in fs.inodes && fs.inodes[id].count == Greater(count0, q + 1)
      && Spent(fs.s, count0, free0, fs.inodes[id].count, FreeCount(fs.bits))
    }

    /** The last piece, of `m` bytes, is in block `q`. */
    lemma AllPaid(id: nat, count0: nat, free0: nat, off: nat, done: nat, n: nat, q: nat, r: nat, m: nat)
      requires Spends(id, count0, free0, q) && Near(off, done, n, q, r, bpb, fs.inodes[id].count, DIRECT + 2 * fs.s)
      requires done + m == n && r + m <= bpb && (m == 0 ==> n == 0)
      ensures Paid(fs.s, count0, free0, off, n, bpb, true, n)
    {
      hide Spent, FreeCount, Needed;
      PaidAll(fs.s, count0, free0, fs.inodes[id].count, FreeCount(fs.bits), off, done, n, q, r, m, bpb, DIRECT + 2 * fs.s);
    }

    lemma Basics(id: nat)
      requires Valid() && id in fs.inodes
      ensures 4 <= fs.s && 0 < bpb && id in sizes && |Contents(id)| == sizes[id] && sizes[id] <= fs.inodes[id].count * bpb
      ensures forall j :: j in fs.inodes ==> j in sizes
    {
      FileHeld(id);
    }

    /** `default_read`: up to the end of the file, and as `Overlaid` says: the buffer does not advance between blocks. */
    method Read(id: nat, cursor: nat, n: nat, buf: seq<Byte>) returns (count: nat, cursor': nat, buf': seq<Byte>)
      requires Valid() && 0 < fs.s && id in fs.inodes && id in sizes && n <= |buf| && Reaches(cursor, n, sizes[id], bpb, DIRECT + 2 * fs.s)
      ensures count == if cursor >= sizes[id] then 0 else if n < sizes[id] - cursor then n else sizes[id] - cursor
      ensures cursor' == cursor + count && 0 < bpb && |Contents(id)| == sizes[id]
      ensures buf' == if count == 0 then buf else Overlaid(Contents(id), cursor, count, bpb, buf)
    {
      hide Inv, Stored, Held, Content, Text, Quot, Rem, AtByte, Overlaid, Ends, Reaches;
      Basics(id);
      ghost var bound := DIRECT + 2 * fs.s;
      count, cursor', buf' := 0, cursor, buf;
      var size := sizes[id];
      if cursor >= size {
        return;
      }
      ghost var f := Contents(id);
      ghost var all := if n < size - cursor then n else size - cursor;
      ReachesAll(cursor, n, size, bpb, bound);
      Start(cursor, bpb, size, fs.inodes[id].count);
      var q: nat, r: nat := Quot(cursor, bpb), Rem(cursor, bpb);
      var left := n;
      while left > 0
        invariant count + left == n && cursor' == cursor + count < size && |buf'| == |buf| && 0 < bpb
        invariant count < all || left == 0
        invariant AtByte(cursor', q, r, bpb) && r == Rem(cursor', bpb) && r < bpb && Ends(cursor + all, bpb, bound)
        invariant |f| == size && if count == 0 then buf' == buf else count < all && Overlaid(f, cursor, all, bpb, buf) == Overlaid(f, cursor', all - count, bpb, buf')
        decreases left
      {
        var m := Min(size - cursor', Min(left, bpb - r));
        OverlaidStep(f, cursor', all - count, bpb, buf', m);
        EndsBefore(cursor' + m, cursor + all, bpb, bound);
        buf' := ReadPiece(id, q, r, cursor', m, buf');
        count, cursor', left := count + m, cursor' + m, left - m;
        if left == 0 || cursor' >= size {
          return;
        }
        NextStart(cursor' - m, q, r, m, bpb);
        q, r := q + 1, 0;
      }
    }

    /** A write, then a read of part `at..at + m` of what was written, within a block: the part comes back. */
    method WriteThenRead(id: nat, cursor: nat, append: bool, data: seq<Byte>, at: nat, m: nat, buf: seq<Byte>)
      returns (err: Err, done: nat, count: nat, buf': seq<Byte>)
      requires Valid() && id in fs.inodes && (append || cursor <= sizes[id])
      requires Fits(if append then sizes[id] else cursor, |data|, bpb, fs.inodes[id].count, DIRECT + 2 * fs.s)
      requires 0 < bpb && at + m <= |data| && m <= |buf| && m <= bpb - Rem((if append then sizes[id] else cursor) + at, bpb)
      modifies this`bytes, this`sizes, fs`disk, fs`bits, fs.bm`blocks, fs`inodes, fs`owner
      ensures Valid() && fs.inodes.Keys == old(fs.inodes).Keys && (err == Success ==> done == |data|)
      ensures err != Success ==> FreeCount(fs.bits) == 0
      ensures var off := if append then old(sizes)[id] else cursor;
              Paid(fs.s, old(fs.inodes)[id].count, FreeCount(old(fs.bits)), off, |data|, bpb, err == Success, done)
      ensures at + m <= done ==> count == m && |buf'| == |buf| && buf'[..m] == data[at..at + m]
      ensures forall j :: j in fs.inodes && j != id ==> Contents(j) == old(Contents(j))
    {
      hide Inv, Stored, Held, Content, Text, Splice, Rem, Overlaid, Fits, Paid, FreeCount;
      Basics(id);
      var off := if append then sizes[id] else cursor;
      ghost var f := Contents(id);
      var cursor';
      err, done, cursor' := Write(id, cursor, append, data);
      Basics(id);
      count, buf' := 0, buf;
      if at + m <= done {
        SpliceSize(f, off, data[..done]);
        FitsEnds(off, |data|, off + at + m, bpb, old(fs.inodes)[id].count, DIRECT + 2 * fs.s);
        count, cursor', buf' := Read(id, off + at, m, buf);
        WrittenIsRead(f, off, data[..done], at, m, bpb, buf);
        assert data[..done][at..at + m] == data[at..at + m];
        OverlaidSize(Contents(id), off + at, m, bpb, buf);
      }
    }

    /** One round of `default_read`, within block `q`. */
    method ReadPiece(id: nat, q: nat, r: nat, off: nat, m: nat, buf: seq<Byte>) returns (buf': seq<Byte>)
      requires Valid() && 0 < fs.s && id in fs.inodes && id in sizes && Ends(off + m, bpb, DIRECT + 2 * fs.s)
      requires AtByte(off, q, r, bpb) && r < bpb && r + m <= bpb && off + m <= sizes[id] && 0 < m <= |buf|
      ensures |Contents(id)| == sizes[id] && buf' == Contents(id)[off..off + m] + buf[m..]
    {
      hide Inv, Lookup;
      FileHeld(id);
      InBlock(off, q, r, bpb, sizes[id], fs.inodes[id].count);
      MulOrder(DIRECT + 2 * fs.s, q, bpb);
      LookupExact(fs.s, fs.total, fs.first, fs.disk, fs.bits, fs.inodes, fs.owner, id, q);
      var b := Lookup(fs.s, fs.disk, fs.inodes[id], q).b;
      ChunkRead(bytes, fs.File(id), bpb, sizes[id], q, r, off, m);
      if m < bpb {
        var data := bytes[b];
        buf' := data[r..r + m] + buf[m..];
      } else {
        buf' := bytes[b] + buf[m..];
        assert bytes[b][0..bpb] == bytes[b];
      }
    }
  }

  /** The bytes before `end` are in blocks before the bound. */
  ghost predicate Ends(end: nat, bpb: nat, bound: nat) {
    end <= bound * bpb
  }

  /** A read of `n` bytes at `cursor` touches only such bytes. */
  ghost predicate Reaches(cursor: nat, n: nat, size: nat, bpb: nat, bound: nat) {
    cursor >= size || Ends(Min(cursor + n, size), bpb, bound)
  }

  lemma FitsEnds(off: nat, n: nat, end: nat, bpb: nat, count: nat, bound: nat)
    requires Fits(off, n, bpb, count, bound) && end <= off + n
    ensures Ends(end, bpb, bound)
  {
  }

  lemma SpliceSize(f: seq<Byte>, off: nat, piece: seq<Byte>)
    requires off <= |f|
    ensures off + |piece| <= |Splice(f, off, piece)|
  {
  }

  lemma OverlaidSize(f: seq<Byte>, off: nat, m: nat, bpb: nat, buf: seq<Byte>)
    requires 0 < bpb && off + m <= |f| && m <= |buf|
    ensures |Overlaid(f, off, m, bpb, buf)| == |buf|
  {
  }

  lemma ReachesAll(cursor: nat, n: nat, size: nat, bpb: nat, bound: nat)
    requires Reaches(cursor, n, size, bpb, bound) && cursor < size
    ensures Ends(cursor + (if n < size - cursor then n else size - cursor), bpb, bound)
  {
  }

  lemma EndsBefore(end: nat, end': nat, bpb: nat, bound: nat)
    requires Ends(end', bpb, bound) && end <= end'
    ensures Ends(end, bpb, bound)
  {
  }

  /** A piece as long as a block is the whole block. */
  lemma WholePiece(block: seq<Byte>, r: nat, piece: seq<Byte>, bpb: nat)
    requires |block| == bpb && r + |piece| <= bpb
    ensures |piece| == bpb ==> Splice(block, r, piece) == piece
  {
  }

  lemma InBlock(off: nat, q: nat, r: nat, bpb: nat, size: nat, count: nat)
    requires AtByte(off, q, r, bpb) && off < size <= count * bpb
    ensures q < count
  {
    MulOrder(count, q, bpb);
  }

  /** What is left to read, after the part in the current block. */
  lemma OverlaidStep(f: seq<Byte>, off: nat, left: nat, bpb: nat, buf: seq<Byte>, m: nat)
    requires 0 < bpb && off + left <= |f| && left <= |buf| && Rem(off, bpb) < bpb && m == Min(left, bpb - Rem(off, bpb))
    ensures m == left ==> Overlaid(f, off, left, bpb, buf) == f[off..off + m] + buf[m..]
    ensures m < left ==> Overlaid(f, off, left, bpb, buf) == Overlaid(f, off + m, left - m, bpb, f[off..off + m] + buf[m..])
  {
    hide Rem;
  }

  lemma NextStart(off: nat, q: nat, r: nat, m: nat, bpb: nat)
    requires 0 < bpb && AtByte(off, q, r, bpb) && r + m == bpb
    ensures AtByte(off + m, q + 1, 0, bpb) && Rem(off + m, bpb) == 0
  {
    assert off + m == (q + 1) * bpb;
    DivExact(bpb, q + 1);
  }

  /** A write of `n` bytes at `off` touches only blocks before the bound, or appends the one at the bound. */
  ghost predicate Fits(off: nat, n: nat, bpb: nat, count: nat, bound: nat) {
    off + n <= bound * bpb && (count <= bound || off < bound * bpb)
  }

  lemma SpliceNothing(f: seq<Byte>, off: nat, buf: seq<Byte>)
    requires off <= |f|
    ensures Splice(f, off, buf[..0]) == f
  {
  }

  /** Offset `off` is byte `r` of block `q`. */
  ghost predicate AtByte(off: nat, q: nat, r: nat, bpb: nat) {
    off == q * bpb + r
  }

  // ---------------------------------------------------------------------------
  // What a write costs
  // ---------------------------------------------------------------------------

  ghost function Greater(a: nat, b: nat): nat {
    if a < b then b else a
  }

  /** The free blocks that it takes to grow a file from `i` blocks to `j`. */
  ghost function NeededTo(s: nat, i: nat, j: nat): nat
    requires 0 < s
  {
    if j <= i then 0 else NeededTo(s, i, j - 1) + Needed(s, j - 1)
  }

  /** The blocks of a file that a write of `n` bytes at `off` leaves it with, if it had fewer: an empty write, too,
      makes sure of the first. */
  ghost function Covers(off: nat, n: nat, bpb: nat): nat
    requires 0 < bpb
  {
    Quot(if n == 0 then off else off + n - 1, bpb) + 1
  }

  /** Block `k` is the first that the free blocks do not suffice for. */
  ghost predicate StopsAt(s: nat, count: nat, free: nat, k: nat)
    requires 0 < s
  {
    count <= k && NeededTo(s, count, k) <= free < NeededTo(s, count, k + 1)
  }

  /** A write succeeds exactly if the free blocks suffice for all blocks that it appends; if not, it writes up to the
      first that they do not suffice for. */
  ghost predicate Paid(s: nat, count: nat, free: nat, off: nat, n: nat, bpb: nat, ok: bool, done: nat) {
    && 0 < s && 0 < bpb
    && (ok <==> NeededTo(s, count, Covers(off, n, bpb)) <= free)
    && (!ok ==> exists k :: StopsAt(s, count, free, k) && AtByte(off + done, k, 0, bpb))
  }

  /** The file grew from `count0` blocks to `count`, at the expense of the free ones. */
  ghost predicate Spent(s: nat, count0: nat, free0: nat, count: nat, free: nat) {
    0 < s && count0 <= count && free + NeededTo(s, count0, count) == free0
  }

  lemma SpentNone(s: nat, count: nat, free: nat)
    requires 0 < s
    ensures Spent(s, count, free, count, free)
  {
  }

  lemma SpentNext(s: nat, count0: nat, free0: nat, count: nat, free: nat, free': int)
    requires Spent(s, count0, free0, count, free) && 0 <= free' == free - Needed(s, count)
    ensures Spent(s, count0, free0, count + 1, free')
  {
    hide Needed;
  }

  lemma {:induction false} NeededGrows(s: nat, i: nat, j: nat, k: nat)
    requires 0 < s && j <= k
    ensures NeededTo(s, i, j) <= NeededTo(s, i, k)
  {
    hide Needed;
    if j < k {
      NeededGrows(s, i, j, k - 1);
    }
  }

  /** All blocks were there or could be had. */
  lemma PaidAll(s: nat, count0: nat, free0: nat, count: nat, free: nat, off: nat, done: nat, n: nat, q: nat, r: nat, m: nat, bpb: nat, bound: nat)
    requires Spent(s, count0, free0, count, free) && count == Greater(count0, q + 1)
    requires Near(off, done, n, q, r, bpb, count, bound) && r + m <= bpb && done + m == n && (m == 0 ==> n == 0)
    ensures Paid(s, count0, free0, off, n, bpb, true, n)
  {
    hide Needed, Quot, Rem;
    DivUnique(bpb, q, if m == 0 then r else r + m - 1);
    NeededGrows(s, count0, q + 1, count);
  }

  /** Block `k` cannot be had. */
  lemma SpentShort(s: nat, count0: nat, free0: nat, k: nat, free: nat)
    requires Spent(s, count0, free0, k, free) && free < Needed(s, k)
    ensures StopsAt(s, count0, free0, k)
  {
    hide Needed;
  }

  /** And there are bytes for it. */
  lemma PaidShort(s: nat, count0: nat, free0: nat, off: nat, done: nat, n: nat, k: nat, bpb: nat)
    requires 0 < s && StopsAt(s, count0, free0, k) && 0 < bpb && done < n && AtByte(off + done, k, 0, bpb)
    ensures Paid(s, count0, free0, off, n, bpb, false, done)
  {
    hide Needed, Quot, Rem;
    var last := off + n - 1;
    QuotOrder(k, last, bpb);
    NeededGrows(s, count0, k + 1, Quot(last, bpb) + 1);
  }

  lemma QuotOrder(k: nat, x: nat, d: nat)
    requires 0 < d && k * d <= x
    ensures k <= Quot(x, d)
  {
    assert x == x / d * d + x % d;
    MulOrder(x / d + 1, k, d);
  }

  /** The first block could not be had. */
  lemma FirstShort(s: nat, count: nat, free: nat, off: nat, n: nat, q: nat, r: nat, bpb: nat, size: nat)
    requires Spent(s, count, free, count, free) && free < Needed(s, count) && q == count && 0 < bpb && r < bpb
    requires AtByte(off, q, r, bpb) && off <= size <= count * bpb
    ensures Paid(s, count, free, off, n, bpb, false, 0)
  {
    hide Needed, Quot, Rem;
    var last := if n == 0 then off else off + n - 1;
    QuotOrder(count, last, bpb);
    NeededGrows(s, count, count + 1, Quot(last, bpb) + 1);
    assert NeededTo(s, count, count) == 0;
    assert StopsAt(s, count, free, count) && AtByte(off + 0, count, 0, bpb);
  }

  /** Where a write stands: offset `off + done` is byte `r` of block `q`, and the end is within the bound. */
  ghost predicate Near(off: nat, done: nat, n: nat, q: nat, r: nat, bpb: nat, count: nat, bound: nat) {
    && 0 < bpb && r < bpb && AtByte(off + done, q, r, bpb) && off + n <= bound * bpb && q < count
  }

  lemma Start(off: nat, bpb: nat, size: nat, count: nat)
    requires 0 < bpb && off <= size <= count * bpb
    ensures Quot(off, bpb) <= count && Rem(off, bpb) < bpb && AtByte(off, Quot(off, bpb), Rem(off, bpb), bpb)
  {
    assert off == off / bpb * bpb + off % bpb;
    MulOrder(count, off / bpb, bpb);
  }

  lemma FirstWithin(off: nat, n: nat, q: nat, r: nat, bpb: nat, count: nat, bound: nat)
    requires 0 < bpb && AtByte(off, q, r, bpb) && Fits(off, n, bpb, count, bound) && q <= count
    ensures q <= bound && (q == count || q < bound)
  {
    MulOrder(bound, q, bpb);
  }

  lemma NextBlock(off: nat, done: nat, n: nat, q: nat, r: nat, m: nat, bpb: nat, count: nat, bound: nat)
    requires Near(off, done, n, q, r, bpb, count, bound) && done + m < n && r + m == bpb
    ensures q + 1 <= count && q + 1 < bound && AtByte(off + done + m, q + 1, 0, bpb)
    ensures Near(off, done + m, n, q + 1, 0, bpb, if q + 1 == count then q + 2 else count, bound)
  {
    assert (q + 1) * bpb == q * bpb + bpb;
    MulOrder(bound, q + 1, bpb);
  }

  lemma FirstBlock(off: nat, n: nat, q: nat, r: nat, bpb: nat, count: nat, count': nat, bound: nat)
    requires 0 < bpb && r < bpb && AtByte(off, q, r, bpb) && Fits(off, n, bpb, count, bound) && q <= count
    requires count' == if q == count then q + 1 else count
    ensures Near(off, 0, n, q, r, bpb, count', bound)
  {
    MulOrder(bound, q, bpb);
  }

  lemma SpliceNext(f: seq<Byte>, off: nat, buf: seq<Byte>, done: nat, m: nat)
    requires off <= |f| && done + m <= |buf|
    ensures off + done <= |Splice(f, off, buf[..done])|
    ensures Splice(Splice(f, off, buf[..done]), off + done, buf[done..done + m]) == Splice(f, off, buf[..done + m])
    ensures off + done + m <= |Splice(f, off, buf[..done + m])|
  {
    assert buf[..done + m] == buf[..done] + buf[done..done + m];
    SpliceTwice(f, off, buf[..done], buf[done..done + m]);
  }

}
