/** What holds of the block allocator as a whole: where lookup agrees with append, that remove undoes append, and
that over any run the bitmap is exactly the metadata and the disjoint trees of the files. */
module InodeTheorems {
  import opened Arithmetic
  import opened InodePath
  import opened InodeTree
  import opened Inodes

  // ---------------------------------------------------------------------------
  // Lookup
  // ---------------------------------------------------------------------------

  /** A block number, or whatever lies past the buffer that was read. */
  datatype Found = Block(b: nat) | PastBuffer

  /** `get_block_num_from_disk_ptr`: entry `i` of pointer block `ptr`; the index is not checked. */
  function Fetch(s: nat, disk: Disk, ptr: Found, i: nat): Found {
    if ptr.Block? && i < s then Block(Word(disk, ptr.b, i)) else PastBuffer
  }

  /** `get_block_num_from_inode`, with the digits as it takes them. */
  function Lookup(s: nat, disk: Disk, ino: Inode, i: nat): Found
    requires 0 < s
  {
    if ino.count <= i then Block(0)
    else if i < DIRECT || ino.count <= SLOTS then Block(Slot(ino, i))
    else if i < DIRECT + s then Fetch(s, disk, Block(Slot(ino, 12)), i - DIRECT)
    else
      assert 0 < Sq(s) && 0 < Cube(s) by { assert 0 < Sq(s) * s; }
      if i < DIRECT + s + Sq(s) then
        var k := i - s - DIRECT;
        Fetch(s, disk, Fetch(s, disk, Block(Slot(ino, 13)), Quot(k, Sq(s))), Rem(k, Sq(s)))
      else
        var t := i - Sq(s) - s - DIRECT;
        var k := Rem(t, Cube(s));
        var dbl := Fetch(s, disk, Block(Slot(ino, 14)), Quot(t, Cube(s)));
        Fetch(s, disk, Fetch(s, disk, dbl, Quot(k, Sq(s))), Rem(k, Sq(s)))
  }

  /** Where lookup takes the digits that append took. */
  ghost predicate Findable(s: nat, i: nat) {
    i < DIRECT + 2 * s || DIRECT + s + Sq(s) <= i < DIRECT + 2 * s + Sq(s)
  }

  /** Lookup finds the block that append put at position `i` exactly when `i` is among the first `s` blocks of its
      pointer range.  Everywhere else it reads past its buffer or returns another block of the same file. */
  lemma LookupExact(s: nat, total: nat, first: nat, disk: Disk, bits: seq<bool>, inodes: map<nat, Inode>, owner: map<nat, Owner>, id: nat, i: nat)
    requires Inv(s, total, first, disk, bits, inodes, owner) && id in inodes && i < inodes[id].count
    ensures Lookup(s, disk, inodes[id], i) == Block(Blocks(s, disk, inodes[id])[i]) <==> Findable(s, i)
    ensures Findable(s, i) || Lookup(s, disk, inodes[id], i) == PastBuffer
            || exists j :: 0 <= j < inodes[id].count && j != i && Lookup(s, disk, inodes[id], i) == Block(Blocks(s, disk, inodes[id])[j])
  {
    hide Marked, Exact, Capacity, Live, Rooted;
    var ino := inodes[id];
    if i < DIRECT || ino.count <= SLOTS || i < DIRECT + s {
      LookupNear(s, disk, ino, i);
    } else if i < DIRECT + s + Sq(s) {
      LookupDouble(s, disk, ino, i);
    } else {
      LookupTriple(s, disk, ino, i);
      if !Findable(s, i) && Lookup(s, disk, ino, i) != PastBuffer {
        var j := Confused(s, i);
        TwoBlocks(s, total, first, disk, bits, inodes, owner, id, i, j);
        assert Lookup(s, disk, ino, i) == Block(Blocks(s, disk, ino)[j]);
      }
    }
  }

  lemma BelowCapacity(s: nat)
    requires 4 <= s
    ensures DIRECT + 2 * s < Capacity(s)
  {
    MulOrder(2, s, s);
    assert 0 < Cube(s) by { assert 0 < Sq(s) * s; }
  }

  /** In a file of at most 12 + 2S blocks lookup finds every block, and 0 says exactly that the file ends before. */
  lemma LookupShort(s: nat, total: nat, first: nat, disk: Disk, bits: seq<bool>, inodes: map<nat, Inode>, owner: map<nat, Owner>, id: nat, i: nat)
    requires Inv(s, total, first, disk, bits, inodes, owner) && id in inodes && inodes[id].count <= DIRECT + 2 * s
    ensures Lookup(s, disk, inodes[id], i) == Block(if i < inodes[id].count then Blocks(s, disk, inodes[id])[i] else 0)
    ensures Lookup(s, disk, inodes[id], i) == Block(0) <==> inodes[id].count <= i
  {
    hide Marked, Exact, Live, Rooted;
    if i < inodes[id].count {
      LookupExact(s, total, first, disk, bits, inodes, owner, id, i);
      BlocksDistinct(s, total, first, disk, bits, inodes, owner, id, i, id, i);
    }
  }

  lemma LookupNear(s: nat, disk: Disk, ino: Inode, i: nat)
    requires 4 <= s && i < ino.count && |ino.slots| == SLOTS
    requires i < DIRECT || ino.count <= SLOTS || i < DIRECT + s
    ensures Lookup(s, disk, ino, i) == Block(Addr(disk, ino, DataNode(s, i)))
  {
    hide Path, Quot, Rem, Sq, Cube;
    SmallPaths(s, i);
    if i < DIRECT {
      assert DataNode(s, i) == N0(i);
    } else {
      assert DataNode(s, i) == N1(i - DIRECT);
      assert Addr(disk, ino, P1) == Slot(ino, 12);
    }
  }

  lemma LookupDouble(s: nat, disk: Disk, ino: Inode, i: nat)
    requires 4 <= s && DIRECT + s <= i < DIRECT + s + Sq(s) && i < ino.count
    ensures Findable(s, i) ==> Lookup(s, disk, ino, i) == Block(Addr(disk, ino, DataNode(s, i)))
    ensures !Findable(s, i) ==> Lookup(s, disk, ino, i) == PastBuffer
  {
    hide Quot, Rem, Sq, Cube;
    var k := i - s - DIRECT;
    DivSmall(k, Sq(s));
    if k < s {
      DivSmall(k, s);
      assert DataNode(s, i) == N2(0, k);
      assert Addr(disk, ino, P2) == Slot(ino, 13);
      assert Addr(disk, ino, P2S(0)) == Word(disk, Slot(ino, 13), 0);
    }
  }

  /** In the triple range lookup goes to digits `0, q, r` where append went to `q, r / s, r % s`. */
  lemma LookupTriple(s: nat, disk: Disk, ino: Inode, i: nat)
    requires 4 <= s && DIRECT + s + Sq(s) <= i < ino.count <= Capacity(s)
    ensures var t := i - DIRECT - s - Sq(s);
            && 0 < Sq(s) && Quot(t, Sq(s)) < s
            && Lookup(s, disk, ino, i) ==
               if Rem(t, Sq(s)) < s then Block(Addr(disk, ino, N3(0, Quot(t, Sq(s)), Rem(t, Sq(s))))) else PastBuffer
    ensures Findable(s, i) ==> Lookup(s, disk, ino, i) == Block(Addr(disk, ino, DataNode(s, i)))
  {
    var t := i - DIRECT - s - Sq(s);
    assert 0 < Sq(s) && Cube(s) == s * Sq(s);
    DivRange(t, Sq(s), s);
    DivSmall(t, Cube(s));
    var q, r := Quot(t, Sq(s)), Rem(t, Sq(s));
    assert Addr(disk, ino, P3) == Slot(ino, 14);
    assert Addr(disk, ino, P3D(0)) == Word(disk, Slot(ino, 14), 0);
    assert Addr(disk, ino, P3S(0, q)) == Word(disk, Word(disk, Slot(ino, 14), 0), q);
    if t < s {
      SqLarge(s);
      DivSmall(t, Sq(s));
      DivSmall(t, s);
    }
  }

  /** The position whose block lookup returns instead of `i`'s, when it stays in its buffer. */
  ghost function Confused(s: nat, i: nat): nat
    requires 4 <= s && DIRECT + s + Sq(s) <= i
  {
    var t := i - DIRECT - s - Sq(s);
    DIRECT + s + Sq(s) + Quot(t, Sq(s)) * s + Rem(t, Sq(s))
  }

  lemma QuotPositive(t: nat, d: nat, s: nat)
    requires 0 < d && s <= t && Rem(t, d) < s
    ensures 0 < Quot(t, d) && t == Quot(t, d) * d + Rem(t, d)
  {
    assert t == t / d * d + t % d;
    assert t / d != 0;
  }

  lemma DigitSwap(s: nat, q: nat, r: nat)
    requires 1 < s && 0 < q < s && r < s
    ensures q * s + r < Sq(s) && q * s + r < q * Sq(s) + r
  {
    MulOrder(q, s, s);
    SqLarge(s);
    assert q * s < q * Sq(s) by {
      assert q * (Sq(s) - s) > 0;
    }
  }

  lemma ConfusedAt(s: nat, i: nat)
    requires 4 <= s && DIRECT + 2 * s + Sq(s) <= i < Capacity(s)
    requires Rem(i - DIRECT - s - Sq(s), Sq(s)) < s
    ensures Confused(s, i) < i
    ensures var t := i - DIRECT - s - Sq(s); DataNode(s, Confused(s, i)) == N3(0, Quot(t, Sq(s)), Rem(t, Sq(s)))
  {
    hide Quot, Rem, Sq, Cube, Path;
    var t := i - DIRECT - s - Sq(s);
    TopDigit(s, t);
    QuotPositive(t, Sq(s), s);
    DigitSwap(s, Quot(t, Sq(s)), Rem(t, Sq(s)));
    SwappedNode(s, Quot(t, Sq(s)), Rem(t, Sq(s)));
  }

  lemma TopDigit(s: nat, t: nat)
    requires 0 < s && t < Cube(s)
    ensures 0 < Sq(s) && Quot(t, Sq(s)) < s
  {
    hide Quot, Sq;
    assert Cube(s) == s * Sq(s);
    DivRange(t, Sq(s), s);
  }

  lemma SwappedNode(s: nat, q: nat, r: nat)
    requires 4 <= s && 0 < q < s && r < s && q * s + r < Sq(s)
    ensures DataNode(s, DIRECT + s + Sq(s) + q * s + r) == N3(0, q, r)
  {
    hide Quot, Rem, Sq;
    var k := q * s + r;
    DivSmall(k, Sq(s));
    DivUnique(s, q, r);
    assert DIRECT + s + Sq(s) + q * s + r == DIRECT + s + Sq(s) + k;
  }

  lemma TwoBlocks(s: nat, total: nat, first: nat, disk: Disk, bits: seq<bool>, inodes: map<nat, Inode>, owner: map<nat, Owner>, id: nat, i: nat, j: nat)
    requires Inv(s, total, first, disk, bits, inodes, owner) && id in inodes
    requires DIRECT + s + Sq(s) <= i < inodes[id].count && !Findable(s, i) && j == Confused(s, i)
    requires Rem(i - DIRECT - s - Sq(s), Sq(s)) < s
    ensures j < i
    ensures var t := i - DIRECT - s - Sq(s); Blocks(s, disk, inodes[id])[j] == Addr(disk, inodes[id], N3(0, Quot(t, Sq(s)), Rem(t, Sq(s))))
    ensures Blocks(s, disk, inodes[id])[i] != Blocks(s, disk, inodes[id])[j]
  {
    ConfusedAt(s, i);
    BlocksDistinct(s, total, first, disk, bits, inodes, owner, id, j, id, i);
  }

  // ---------------------------------------------------------------------------
  // Files are disjoint
  // ---------------------------------------------------------------------------

  /** No block is at two positions of a file, or in two files. */
  lemma BlocksDistinct(s: nat, total: nat, first: nat, disk: Disk, bits: seq<bool>, inodes: map<nat, Inode>, owner: map<nat, Owner>,
                       id: nat, i: nat, id': nat, i': nat)
    requires Inv(s, total, first, disk, bits, inodes, owner) && id in inodes && id' in inodes
    requires i < inodes[id].count && i' < inodes[id'].count
    ensures Blocks(s, disk, inodes[id])[i] == Blocks(s, disk, inodes[id'])[i'] <==> id == id' && i == i'
    ensures first <= Blocks(s, disk, inodes[id])[i] < total && bits[Blocks(s, disk, inodes[id])[i]]
  {
    hide DataNode, Live, Addr, Capacity;
    var x, x' := DataNode(s, i), DataNode(s, i');
    DataLive(s, inodes[id].count, i);
    DataLive(s, inodes[id'].count, i');
    assert LiveIn(s, inodes, id, x) && LiveIn(s, inodes, id', x');
    assert Capacity(s) >= inodes[id].count && Capacity(s) >= inodes[id'].count;
    if i < i' { DataInjective(s, i, i'); } else if i' < i { DataInjective(s, i', i); }
  }

  // ---------------------------------------------------------------------------
  // Remove undoes append
  // ---------------------------------------------------------------------------

  /** Appending a block and removing it again: the bitmap, the uses of all blocks and every file are as before. */
  method AppendThenRemove(fs: FileSystem, id: nat) returns (err: Err)
    requires fs.Valid() && id in fs.inodes
    modifies fs`disk, fs`bits, fs.bm`blocks, fs`inodes, fs`owner
    ensures fs.Valid() && fs.inodes.Keys == old(fs.inodes).Keys
    ensures err == Success <==> old(fs.inodes)[id].count < Capacity(fs.s) && Needed(fs.s, old(fs.inodes)[id].count) <= FreeCount(old(fs.bits))
    ensures forall j :: j in fs.inodes ==> fs.File(j) == old(fs.File(j))
    ensures err == Success ==> fs.bits == old(fs.bits) && fs.owner == old(fs.owner)
  {
    hide Rooted, Exact, Marked, Gone, IsNew, Capacity, Needed, FreeCount, OnlyLeaks, DataNode, Addr;
    var b;
    NeedsSome(fs.s, fs.inodes[id].count);
    err, b := fs.Append(id);
    if err == Success {
      ghost var owner1 := fs.owner;
      var e := fs.RemoveLast(id);
      UndoOwner(fs, id, old(fs.disk), old(fs.bits), old(fs.inodes), old(fs.owner), owner1);
    }
  }

  lemma NeedsSome(s: nat, n: nat)
    requires 0 < s
    ensures 1 <= Needed(s, n)
  {
  }

  /** The blocks gone with the last block of a file are those its append took. */
  lemma UndoOwner(fs: FileSystem, id: nat, disk0: Disk, bits0: seq<bool>, inodes0: map<nat, Inode>, owner0: map<nat, Owner>, owner1: map<nat, Owner>)
    requires fs.Valid() && Inv(fs.s, fs.total, fs.first, disk0, bits0, inodes0, owner0) && id in inodes0 && inodes0[id].count < Capacity(fs.s)
    requires fs.Grew(owner0, owner1, id, inodes0[id].count) && fs.owner == owner1 - Gone(fs.s, owner1, id, inodes0[id].count)
    ensures fs.owner == owner0 && fs.bits == bits0
  {
    hide Live, IsNew, Addr, Capacity, Rooted;
    var n := inodes0[id].count;
    forall c | c in owner0
      ensures c !in Gone(fs.s, owner1, id, n)
    {
      if owner0[c].Tree? && owner0[c].id == id {
        assert LiveIn(fs.s, inodes0, id, owner0[c].node);
        LiveSucc(fs.s, n, owner0[c].node);
      }
    }
    assert fs.owner == owner0;
    forall b | 0 <= b < fs.total
      ensures fs.bits[b] == bits0[b]
    {
      assert b in owner0 <==> b in fs.owner;
    }
  }

  // ---------------------------------------------------------------------------
  // Runs
  // ---------------------------------------------------------------------------

  datatype Op = AppendTo(id: nat) | RemoveFrom(id: nat) | Truncate(id: nat) | NewFile(id: nat) | LinkTo(id: nat) | Unlink(id: nat)

  /** What an operation reports: the block it added, nothing, that the file has other links, that it does not apply, or
      that there were too few blocks. */
  datatype Outcome = Added(b: nat) | Done | Kept | Refused | Starved

  /** The whole state; `bytes` are those of the bitmap on disk. */
  datatype Snap = Snap(s: nat, total: nat, first: nat, disk: Disk, bytes: seq<bv8>, bits: seq<bool>, inodes: map<nat, Inode>,
                       links: map<nat, int>, owner: map<nat, Owner>)

  ghost function Now(fs: FileSystem): Snap
    reads fs, fs.bm
  {
    Snap(fs.s, fs.total, fs.first, fs.disk, fs.bm.Bytes(), fs.bits, fs.inodes, fs.links, fs.owner)
  }

  ghost predicate Sound(x: Snap) {
    Inv(x.s, x.total, x.first, x.disk, x.bits, x.inodes, x.owner) && Agree(x.bits, x.bytes)
  }

  type Files = map<nat, seq<nat>>

  ghost function View(s: nat, disk: Disk, inodes: map<nat, Inode>): Files
    requires 0 < s
  {
    map id | id in inodes :: Blocks(s, disk, inodes[id])
  }

  /** The files as a caller sees them: each a sequence of blocks, with no trees and no bitmap. */
  ghost function FilesOf(x: Snap): Files {
    if 0 < x.s then View(x.s, x.disk, x.inodes) else map[]
  }

  /** Every marked block is metadata or part of a file. */
  ghost predicate Leakless(x: Snap) {
    forall b :: b in x.owner ==> x.owner[b] != Leak
  }

  /** The blocks that an append to file `id` needs. */
  ghost function NeededFor(x: Snap, id: nat): nat {
    if 0 < x.s && id in x.inodes then Needed(x.s, x.inodes[id].count) else 0
  }

  ghost function LinksIn(x: Snap, id: nat): int {
    if id in x.links then x.links[id] else 0
  }

  /** The link counts after the operation. */
  ghost function LinksAfter(x: Snap, op: Op): map<nat, int> {
    match op
    case NewFile(id) => if id in x.inodes then x.links else x.links[id := 0]
    case LinkTo(id) => if id in x.inodes then x.links[id := LinksIn(x, id) + 1] else x.links
    case Unlink(id) => if id in x.inodes then x.links[id := LinksIn(x, id) - 1] else x.links
    case _ => x.links
  }

  /** Exactly when an operation reports what. */
  ghost function Report(x: Snap, op: Op): Outcome {
    match op
    case AppendTo(id) =>
      if id !in x.inodes || x.inodes[id].count >= Capacity(x.s) then Refused
      else if FreeCount(x.bits) < NeededFor(x, id) then Starved
      else Added(0)
    case RemoveFrom(id) => if id in x.inodes && x.inodes[id].count != 0 then Done else Refused
    case NewFile(id) => if id in x.inodes then Refused else Done
    case Unlink(id) => if id !in x.inodes then Refused else if 1 < LinksIn(x, id) then Kept else Done
    case _ => if op.id in x.inodes then Done else Refused
  }

  /** What the operation does to the sequences. */
  ghost predicate Changes(f: Files, op: Op, out: Outcome, f': Files) {
    if out == Refused || out == Starved || out == Kept then f' == f
    else
      match op
      case AppendTo(id) => id in f && out.Added? && f' == f[id := f[id] + [out.b]] && forall j :: j in f ==> out.b !in f[j]
      case RemoveFrom(id) => id in f && f[id] != [] && f' == f[id := f[id][..|f[id]| - 1]]
      case Truncate(id) => id in f && f' == f[id := if f[id] == [] then [] else f[id][..1]]
      case NewFile(id) => f' == f[id := []]
      case LinkTo(id) => f' == f
      case Unlink(id) => f' == f - {id}
  }

  /** A step on the disk: the report, the sequences, and the blocks.  Only an append that starves loses blocks, and then
      it loses all that were free. */
  ghost predicate Step(x: Snap, op: Op, out: Outcome, x': Snap) {
    && x'.s == x.s && x'.total == x.total && x'.first == x.first
    && (if out.Added? then Report(x, op).Added? else out == Report(x, op)) && x'.links == LinksAfter(x, op)
    && Changes(FilesOf(x), op, out, FilesOf(x'))
    && (out.Added? ==> FreeCount(x'.bits) == FreeCount(x.bits) - NeededFor(x, op.id))
    && (out == Starved ==> FreeCount(x'.bits) == 0)
    && (Leakless(x) && out != Starved ==> Leakless(x'))
    && WritesOnly(x.disk, x'.disk, x.owner, op.id)
  }

  /** A run, by its states: every one is sound, and each follows from the one before by its operation. */
  ghost predicate Trace(states: seq<Snap>, ops: seq<Op>, outs: seq<Outcome>) {
    && |states| == |ops| + 1 && |outs| == |ops|
    && (forall k :: 0 <= k <= |ops| ==> Sound(states[k]))
    && (forall k :: 0 <= k < |ops| ==> Step(states[k], ops[k], outs[k], states[k + 1]))
  }

  lemma AppendStep(fs: FileSystem, id: nat, disk0: Disk, inodes0: map<nat, Inode>, b: nat)
    requires fs.Valid() && id in fs.inodes && id in inodes0 && fs.OthersKept(disk0, inodes0, id)
    requires fs.File(id) == Blocks(fs.s, disk0, inodes0[id]) + [b]
    ensures Changes(View(fs.s, disk0, inodes0), AppendTo(id), Added(b), View(fs.s, fs.disk, fs.inodes))
  {
    hide Rooted, Exact, Marked, Addr;
    var n := inodes0[id].count;
    forall j, i | j in inodes0 && 0 <= i < inodes0[j].count
      ensures Blocks(fs.s, disk0, inodes0[j])[i] != b
    {
      assert b == fs.File(id)[n];
      assert fs.File(j)[i] == Blocks(fs.s, disk0, inodes0[j])[i];
      BlocksDistinct(fs.s, fs.total, fs.first, fs.disk, fs.bits, fs.inodes, fs.owner, id, n, j, i);
    }
  }

  lemma ChangeStep(fs: FileSystem, id: nat, disk0: Disk, inodes0: map<nat, Inode>)
    requires 0 < fs.s && id in fs.inodes && id in inodes0 && fs.OthersKept(disk0, inodes0, id)
    ensures View(fs.s, fs.disk, fs.inodes) == View(fs.s, disk0, inodes0)[id := fs.File(id)]
  {
    hide Blocks;
  }

  /** A file is as long as its count. */
  lemma CountIs(fs: FileSystem, id: nat)
    requires fs.Valid() && id in fs.inodes
    ensures 4 <= fs.s && |fs.File(id)| == fs.inodes[id].count <= Capacity(fs.s)
  {
  }

  method PerformAppend(fs: FileSystem, id: nat) returns (out: Outcome)
    requires fs.Valid() && id in fs.inodes
    modifies fs`disk, fs`bits, fs.bm`blocks, fs`inodes, fs`owner
    ensures fs.Valid() && Step(old(Now(fs)), AppendTo(id), out, Now(fs))
  {
    hide Inv, Capacity, Needed, FreeCount, Blocks;
    CountIs(fs, id);
    var err, b := fs.Append(id);
    out := if err == Success then Added(b) else if err == NoFreeBlocks then Starved else Refused;
    if err == Success {
      AppendStep(fs, id, old(fs.disk), old(fs.inodes), b);
    }
  }

  method PerformRemove(fs: FileSystem, id: nat) returns (out: Outcome)
    requires fs.Valid() && id in fs.inodes
    modifies fs`disk, fs`bits, fs.bm`blocks, fs`inodes, fs`owner
    ensures fs.Valid() && Step(old(Now(fs)), RemoveFrom(id), out, Now(fs))
  {
    hide Inv, Capacity, Needed, FreeCount, Blocks;
    CountIs(fs, id);
    var err := fs.RemoveLast(id);
    out := if err == Success then Done else Refused;
    ChangeStep(fs, id, old(fs.disk), old(fs.inodes));
  }

  method CreateFile(fs: FileSystem, id: nat)
    requires fs.Valid() && id !in fs.inodes
    modifies fs`disk, fs`bits, fs.bm`blocks, fs`inodes, fs`owner, fs`links
    ensures fs.Valid() && Step(old(Now(fs)), NewFile(id), Done, Now(fs))
  {
    assert 4 <= fs.s;
    fs.Create(id);
  }

  method TruncateFile(fs: FileSystem, id: nat)
    requires fs.Valid() && id in fs.inodes
    modifies fs`disk, fs`bits, fs.bm`blocks, fs`inodes, fs`owner
    ensures fs.Valid() && Step(old(Now(fs)), Truncate(id), Done, Now(fs))
  {
    hide Inv, Capacity, Needed, FreeCount, Blocks;
    CountIs(fs, id);
    fs.Clear(id, 1);
    ChangeStep(fs, id, fs.disk, old(fs.inodes));
  }

  method UnlinkFile(fs: FileSystem, id: nat) returns (out: Outcome)
    requires fs.Valid() && id in fs.inodes
    modifies fs`disk, fs`bits, fs.bm`blocks, fs`inodes, fs`owner, fs`links
    ensures fs.Valid() && Step(old(Now(fs)), Unlink(id), out, Now(fs))
  {
    hide Inv, Capacity, Needed, FreeCount, Blocks;
    CountIs(fs, id);
    var gone := fs.Delete(id);
    out := if gone then Done else Kept;
  }

  /** One operation on the disk is one step on the sequences. */
  method Perform(fs: FileSystem, op: Op) returns (out: Outcome)
    requires fs.Valid()
    modifies fs`disk, fs`bits, fs.bm`blocks, fs`inodes, fs`owner, fs`links
    ensures fs.Valid() && Step(old(Now(fs)), op, out, Now(fs))
  {
    hide Inv, Capacity, Needed, FreeCount, Blocks, View;
    out := Refused;
    if op.id !in fs.inodes {
      if op.NewFile? {
        CreateFile(fs, op.id);
        out := Done;
      }
    } else {
      match op
      case AppendTo(id) => out := PerformAppend(fs, id);
      case RemoveFrom(id) => out := PerformRemove(fs, id);
      case Truncate(id) =>
        TruncateFile(fs, id);
        out := Done;
      case Unlink(id) =>
        out := UnlinkFile(fs, id);
      case LinkTo(id) =>
        fs.AddLink(id);
        out := Done;
      case NewFile(id) =>
    }
  }

  /** Any run of operations is the same run on sequences of blocks; every report has its exact reason; and as long as no
      append starved, every marked block is metadata or in the tree of exactly one file. */
  method RunAll(fs: FileSystem, ops: seq<Op>) returns (outs: seq<Outcome>, ghost states: seq<Snap>)
    requires fs.Valid()
    modifies fs`disk, fs`bits, fs.bm`blocks, fs`inodes, fs`owner, fs`links
    ensures fs.Valid() && Trace(states, ops, outs) && states[0] == old(Now(fs)) && states[|ops|] == Now(fs)
    ensures old(fs.NoLeaks()) && Starved !in outs ==> fs.NoLeaks()
  {
    hide Inv, Step;
    outs, states := [], [Now(fs)];
    for k := 0 to |ops|
      invariant fs.Valid() && Trace(states, ops[..k], outs) && states[0] == old(Now(fs)) && states[k] == Now(fs)
      invariant old(fs.NoLeaks()) && Starved !in outs ==> fs.NoLeaks()
    {
      var out := Perform(fs, ops[k]);
      StepLeakless(states[k], ops[k], out, Now(fs));
      outs, states := outs + [out], states + [Now(fs)];
    }
    assert ops[..|ops|] == ops;
  }

  lemma StepLeakless(x: Snap, op: Op, out: Outcome, x': Snap)
    requires Step(x, op, out, x')
    ensures Leakless(x) && out != Starved ==> Leakless(x')
  {
  }

  /** A step leaves the words of every data block as they are. */
  lemma StepData(x: Snap, op: Op, out: Outcome, x': Snap, j: nat, i: nat)
    requires Sound(x) && Step(x, op, out, x') && j in x.inodes && i < x.inodes[j].count
    ensures var b := Blocks(x.s, x.disk, x.inodes[j])[i]; b < |x.disk| == |x'.disk| && x'.disk[b] == x.disk[b]
  {
    hide Live, Addr, Capacity, Rooted, Exact, Path, Changes, Report;
    DataLive(x.s, x.inodes[j].count, i);
    LiveAddr(x.s, x.total, x.first, x.disk, x.bits, x.inodes, x.owner, j, DataNode(x.s, i));
  }

  /** Over a run, as long as a file reaches to position `i`, the block there is the same and holds the same words. */
  lemma {:induction false} DataStays(states: seq<Snap>, ops: seq<Op>, outs: seq<Outcome>, j: nat, i: nat, n: nat)
    requires Trace(states, ops, outs) && n <= |ops|
    requires forall k :: 0 <= k <= n ==> j in FilesOf(states[k]) && i < |FilesOf(states[k])[j]|
    ensures var b := FilesOf(states[0])[j][i]; FilesOf(states[n])[j][i] == b && b < |states[0].disk| == |states[n].disk| && states[n].disk[b] == states[0].disk[b]
  {
    hide Sound, Step, FilesOf;
    if n == 0 {
      OnDisk(states[0], j, i);
    } else {
      DataStays(states, ops, outs, j, i, n - 1);
      SamePlace(states[n - 1], ops[n - 1], outs[n - 1], states[n], j, i);
    }
  }

  lemma OnDisk(x: Snap, j: nat, i: nat)
    requires Sound(x) && j in FilesOf(x) && i < |FilesOf(x)[j]|
    ensures FilesOf(x)[j][i] < |x.disk|
  {
    BlocksDistinct(x.s, x.total, x.first, x.disk, x.bits, x.inodes, x.owner, j, i, j, i);
  }

  lemma SamePlace(x: Snap, op: Op, out: Outcome, x': Snap, j: nat, i: nat)
    requires Sound(x) && Step(x, op, out, x') && j in FilesOf(x) && i < |FilesOf(x)[j]| && j in FilesOf(x') && i < |FilesOf(x')[j]|
    ensures var b := FilesOf(x)[j][i]; FilesOf(x')[j][i] == b && b < |x.disk| == |x'.disk| && x'.disk[b] == x.disk[b]
  {
    hide Inv;
    StepData(x, op, out, x', j, i);
  }

  // ---------------------------------------------------------------------------
  // How lookup and append fail
  // ---------------------------------------------------------------------------

  lemma NeedsFew(s: nat, n: nat)
    requires 0 < s
    ensures 1 <= Needed(s, n) <= 4
  {
    hide Path;
  }

  /** The root directory of a new disk of `total` blocks with 4 block numbers to a block, grown to `n` blocks. */
  method Grown(total: nat, n: nat) returns (fs: FileSystem)
    requires 1 <= n && 4 * n + 2 <= total && n <= DIRECT + 9
    ensures fs.Valid() && fs.s == 4 && ROOT in fs.inodes && fs.inodes[ROOT].count == n
  {
    hide Inv, Needed, FreeCount, Blocks;
    fs := new FileSystem(4, total, 1, seq(total, _ => seq(4, _ => 0)), total, OneBlockBitmap(total));
    CountIs(fs, ROOT);
    BelowCapacity(4);
    for k := 1 to n
      invariant fs.Valid() && fs.s == 4 && ROOT in fs.inodes && fs.inodes[ROOT].count == k && total - 2 - 4 * (k - 1) <= FreeCount(fs.bits)
    {
      CountIs(fs, ROOT);
      NeedsFew(4, k);
      var err, b := fs.Append(ROOT);
      CountIs(fs, ROOT);
    }
  }

  /** With 4 block numbers to a block, lookup of block 20 of a file of 21 blocks reads past its buffer. */
  method LookupLost() returns (fs: FileSystem)
    ensures fs.Valid() && fs.s == 4 && ROOT in fs.inodes && fs.inodes[ROOT].count == 21
    ensures Lookup(4, fs.disk, fs.inodes[ROOT], 20) == PastBuffer
  {
    hide Inv, Lookup;
    fs := Grown(100, 21);
    LookupDouble(4, fs.disk, fs.inodes[ROOT], 20);
  }

  /** The 16th block of a file needs two blocks.  On a disk with one block left the append fails, and that block is lost. */
  method BlockLost() returns (fs: FileSystem)
    ensures fs.Valid() && ROOT in fs.inodes && fs.inodes[ROOT].count == 15 && FreeCount(fs.bits) == 0 && !fs.NoLeaks()
  {
    hide Inv, FreeCount, Blocks;
    fs := new FileSystem(4, 17, 1, seq(17, _ => seq(4, _ => 0)), 17, OneBlockBitmap(17));
    CountIs(fs, ROOT);
    BelowCapacity(4);
    for k := 1 to 15
      invariant fs.Valid() && fs.s == 4 && fs.total == 17 && fs.first == 1 && ROOT in fs.inodes && fs.inodes[ROOT].count == k
      invariant FreeCount(fs.bits) == 16 - k && fs.NoLeaks()
    {
      CountIs(fs, ROOT);
      NeededInline(4, k);
      var err, b := fs.Append(ROOT);
      CountIs(fs, ROOT);
    }
    MarksExact(fs);
    ghost var before := fs.bits;
    ghost var owner := fs.owner;
    var err, b := fs.Append(ROOT);
    LostOne(fs, before, owner);
  }

  /** A block is marked iff it is in use. */
  lemma MarksExact(fs: FileSystem)
    requires fs.Valid()
    ensures |fs.bits| == fs.total && forall b :: 0 <= b < fs.total ==> (fs.bits[b] <==> b in fs.owner)
  {
    hide Live, Addr, Capacity, Rooted;
  }

  /** A block that was free and is marked now, though no file grew, is lost. */
  lemma LostOne(fs: FileSystem, bits0: seq<bool>, owner0: map<nat, Owner>)
    requires fs.Valid() && |bits0| == fs.total && FreeCount(bits0) == 1 && FreeCount(fs.bits) == 0 && OnlyLeaks(owner0, fs.owner)
    requires forall b :: 0 <= b < fs.total ==> (bits0[b] <==> b in owner0)
    ensures !fs.NoLeaks()
  {
    if forall b :: 0 <= b < |bits0| ==> bits0[b] {
      NoneFree(bits0);
    } else {
      var b :| 0 <= b < |bits0| && !bits0[b];
      EachMarked(fs.bits, b);
      assert b in fs.owner;
    }
  }

  lemma {:induction false} EachMarked(bits: seq<bool>, b: nat)
    requires FreeCount(bits) == 0 && b < |bits|
    ensures bits[b]
  {
    if b > 0 {
      EachMarked(bits[1..], b - 1);
    }
  }
}
