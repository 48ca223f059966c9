/** Block allocation for files (`kernel/fs/inodes.c`): append, remove-last, clear and lookup over inodes, pointer
blocks and the block bitmap.  Device errors do not occur; a buffer from `kmalloc` has arbitrary contents. */
module Inodes {
  import opened Arithmetic
  import Bitmaps
  import Runs = Blocks
  import opened InodePath
  import opened InodeTree
  import opened InodeClear

  const ROOT: nat := 1

  datatype Err = Success | InodeFull | NoFreeBlocks | IllegalBlockNo

  // ---------------------------------------------------------------------------
  // Free blocks
  // ---------------------------------------------------------------------------

  ghost function FreeCount(bits: seq<bool>): nat {
    if bits == [] then 0 else FreeCount(bits[1..]) + (if bits[0] then 0 else 1)
  }

  lemma {:induction false} FreeSnoc(bits: seq<bool>, on: bool)
    ensures FreeCount(bits + [on]) == FreeCount(bits) + (if on then 0 else 1)
  {
    if bits != [] {
      FreeSnoc(bits[1..], on);
      assert (bits + [on])[1..] == bits[1..] + [on];
    }
  }

  lemma {:induction false} TakeFree(bits: seq<bool>, b: nat)
    requires b < |bits| && !bits[b]
    ensures FreeCount(bits[b := true]) == FreeCount(bits) - 1
  {
    if b == 0 {
      assert bits[b := true][1..] == bits[1..];
    } else {
      assert bits[b := true][1..] == bits[1..][b - 1 := true];
      TakeFree(bits[1..], b - 1);
    }
  }

  lemma {:induction false} NoneFree(bits: seq<bool>)
    requires forall b :: 0 <= b < |bits| ==> bits[b]
    ensures FreeCount(bits) == 0
  {
    if bits != [] {
      NoneFree(bits[1..]);
    }
  }

  /** How many blocks an append to a file of `n` blocks allocates. */
  ghost function Needed(s: nat, n: nat): nat
    requires 0 < s
  {
    var p := Path(s, n);
    if n == SLOTS then 2
    else if p.level < 2 || p.c != 0 then 1
    else if p.b != 0 then 2
    else if p.level == 2 || p.a != 0 then 3
    else 4
  }

  lemma CapacityLarge(s: nat)
    requires 4 <= s
    ensures DIRECT + s < Capacity(s)
  {
    hide Cube;
    SqLarge(s);
  }

  /** The bits of a new bitmap are the marks of a new disk. */
  lemma FormatAgrees(bits: seq<bool>, bytes: seq<bv8>, total: nat, first: nat)
    requires bits == seq(total, b => b <= first) && total <= 8 * |bytes| && Bitmaps.Formatted(bytes, 8 * |bytes|, first + 1, total)
    ensures Agree(bits, bytes)
  {
    hide Bitmaps.Bit;
  }

  lemma {:induction false} FormatFree(total: nat, first: nat)
    requires first < total
    ensures FreeCount(seq(total, b => b <= first)) == total - first - 1
  {
    var all := seq(total, b => b <= first);
    var part := all[..0];
    for b := 0 to total
      invariant part == all[..b] && FreeCount(part) == if b <= first + 1 then 0 else b - first - 1
    {
      FreeSnoc(part, b <= first);
      part := part + [b <= first];
    }
    assert all[..total] == all;
  }

  /** A bitmap of one block, for a disk of `total` blocks. */
  function OneBlockBitmap(total: nat): (r: seq<seq<bv8>>)
    ensures Runs.Blocked(r, total) && total <= 8 * |Runs.Flat(r)|
  {
    var block: seq<bv8> := seq(total, _ => 0);
    assert Runs.Flat([block]) == block by { assert [block][..0] == []; }
    [block]
  }

  /** Changing one mark, and its bit. */
  lemma AgreeSets(bits: seq<bool>, bytes: seq<bv8>, bytes': seq<bv8>, b: nat, on: bool)
    requires Agree(bits, bytes) && b < |bits| && Bitmaps.Sets(bytes, bytes', b, on)
    ensures Agree(bits[b := on], bytes')
  {
    hide Bitmaps.Bit;
  }

  /** The lowest clear bit is the lowest free block, and there is none exactly if no block is free. */
  lemma LowestFree(bits: seq<bool>, bytes: seq<bv8>, err: Bitmaps.Err, free: nat)
    requires Agree(bits, bytes) && err != Bitmaps.InvalidArgs
    requires err == Bitmaps.NoFreeBlocks <==> Bitmaps.Full(bytes, |bits|)
    requires err == Bitmaps.Success ==> free < |bits| && !Bitmaps.Bit(bytes, free) && Bitmaps.Full(bytes, free)
    ensures err == Bitmaps.Success <==> 0 < FreeCount(bits)
    ensures err == Bitmaps.Success ==> !bits[free] && forall c :: 0 <= c < free ==> bits[c]
  {
    hide Bitmaps.Bit;
    if err == Bitmaps.Success {
      forall c | 0 <= c < free ensures bits[c] { assert Bitmaps.Bit(bytes, c); }
      TakeFree(bits, free);
    } else {
      forall c | 0 <= c < |bits| ensures bits[c] { assert Bitmaps.Bit(bytes, c); }
      NoneFree(bits);
    }
  }

  ghost function FormatOwner(first: nat, b: nat): Owner {
    if b < first then Meta else Tree(ROOT, N0(0))
  }

  /** The bytes of the bitmap have a bit for every block, which says whether the block is marked. */
  ghost predicate Agree(bits: seq<bool>, bytes: seq<bv8>) {
    |bits| <= 8 * |bytes| && forall b: nat {:trigger Bitmaps.Bit(bytes, b)} :: b < |bits| ==> (Bitmaps.Bit(bytes, b) <==> bits[b])
  }

  class FileSystem {
    const s: nat
    const total: nat
    const first: nat
    const bm: Bitmaps.Bitmap             // the block bitmap, on disk
    var disk: Disk
    ghost var bits: seq<bool>            // what it says
    var inodes: map<nat, Inode>
    var links: map<nat, int>             // `i_links_count`
    ghost var owner: map<nat, Owner>

    /** The marks are the bits of the bitmap. */
    ghost predicate Backed()
      reads this`bits, bm
    {
      bm.Valid() && Agree(bits, bm.Bytes())
    }

    ghost predicate Valid()
      reads this, bm
    {
      Inv(s, total, first, disk, bits, inodes, owner) && Backed()
    }

    function Links(id: nat): int
      reads this`links
    {
      if id in links then links[id] else 0
    }

    /** The blocks of file `id` in order. */
    ghost function File(id: nat): seq<nat>
      requires 0 < s && id in inodes
      reads this
    {
      Blocks(s, disk, inodes[id])
    }

    /** The state after `mkfs_inode`: the root directory, inode 1, holds the first data block. */
    constructor (s: nat, total: nat, first: nat, contents: Disk, bpb: nat, bitmap: seq<seq<bv8>>)
      requires 4 <= s && 0 < first < total && |contents| == total && forall b :: 0 <= b < total ==> |contents[b]| == s
      requires 0 < bpb && Runs.Blocked(bitmap, bpb) && total <= 8 * |Runs.Flat(bitmap)|
      ensures this.s == s && this.total == total && this.first == first && disk == contents && fresh(bm)
      ensures Valid() && inodes.Keys == {ROOT} && File(ROOT) == [first] && NoLeaks() && links == map[ROOT := 2]
      ensures bits == seq(total, b => b <= first) && FreeCount(bits) == total - first - 1
    {
      this.s, this.total, this.first, disk := s, total, first, contents;
      bm := new Bitmaps.Bitmap(bpb, bitmap);
      bits := seq(total, b => b <= first);
      inodes, links := map[ROOT := Inode(1, [first] + seq(SLOTS - 1, _ => 0))], map[ROOT := 2];
      owner := map b: nat | 0 <= b <= first :: FormatOwner(first, b);
      new;
      Runs.FlatSize(bitmap, bpb);
      bm.Format(first + 1, total);
      Runs.FlatSize(bm.blocks, bpb);
      FormatAgrees(bits, bm.Bytes(), total, first);
      FormatFree(total, first);
      FormatInv();
    }

    lemma FormatInv()
      requires 4 <= s && 0 < first < total && |disk| == total && forall b :: 0 <= b < total ==> |disk[b]| == s
      requires bits == seq(total, b => b <= first)
      requires inodes == map[ROOT := Inode(1, [first] + seq(SLOTS - 1, _ => 0))]
      requires owner == map b: nat | 0 <= b <= first :: FormatOwner(first, b)
      requires Backed()
      ensures Valid() && File(ROOT) == [first]
    {
      hide Path, Capacity;
      SmallPaths(s, 1);
      SmallPaths(s, 0);
      CapacityLarge(s);
    }

    /** Every marked block is metadata or part of a file. */
    ghost predicate NoLeaks()
      reads this
    {
      forall b :: b in owner ==> owner[b] != Leak
    }

    /** `add_new_file_inode` on inode number `id`, which `find_free_inode` found: an empty file. */
    method Create(id: nat)
      requires Valid() && id !in inodes
      modifies this`inodes, this`links
      ensures Valid() && inodes.Keys == old(inodes).Keys + {id} && File(id) == [] && links == old(links)[id := 0]
      ensures forall j :: j in old(inodes) ==> inodes[j] == old(inodes)[j] && File(j) == old(File(j))
    {
      hide Path, Capacity, Addr, Backed;
      inodes, links := inodes[id := Inode(0, seq(SLOTS, _ => 0))], links[id := 0];
      SmallPaths(s, 0);
      forall j: nat, x | LiveIn(s, inodes, j, x)
        ensures LiveIn(s, old(inodes), j, x)
      {
      }
      forall j: nat, x | LiveIn(s, old(inodes), j, x)
        ensures LiveIn(s, inodes, j, x)
      {
      }
    }

    /** `update_inode_metadata` for a new link, as `add_dirent` does it. */
    method AddLink(id: nat)
      requires Valid() && id in inodes
      modifies this`links
      ensures Valid() && links == old(links)[id := old(Links(id)) + 1]
    {
      hide Inv, Backed;
      links := links[id := Links(id) + 1];
    }

    /** `free_file_inode`: one link less.  With the last one the file and all its blocks are gone. */
    method Delete(id: nat) returns (gone: bool)
      requires Valid() && id in inodes
      modifies this`bits, bm`blocks, this`inodes, this`owner, this`links
      ensures Valid() && gone == (old(Links(id)) <= 1) && links == old(links)[id := old(Links(id)) - 1]
      ensures inodes.Keys == if gone then old(inodes).Keys - {id} else old(inodes).Keys
      ensures forall j :: j in inodes ==> inodes[j] == old(inodes)[j] && File(j) == old(File(j))
      ensures forall b :: b in owner <==> b in old(owner) && !(gone && old(owner)[b].Tree? && old(owner)[b].id == id)
      ensures forall b :: b in owner ==> owner[b] == old(owner)[b]
    {
      links := links[id := Links(id) - 1];
      gone := links[id] <= 0;
      if !gone {
        return;
      }
      Clear(id, 0);
      ghost var inodes1 := inodes;
      inodes := inodes - {id};
      EmptyTree(inodes1, id);
    }

    lemma EmptyTree(inodes0: map<nat, Inode>, id: nat)
      requires Inv(s, total, first, disk, bits, inodes0, owner) && id in inodes0 && inodes0[id].count == 0
      requires inodes == inodes0 - {id} && Backed()
      ensures Valid()
    {
      hide Path, Capacity, Addr;
      SmallPaths(s, 0);
      forall j: nat, x | LiveIn(s, inodes, j, x)
        ensures LiveIn(s, inodes0, j, x)
      {
      }
      forall j: nat, x | LiveIn(s, inodes0, j, x)
        ensures LiveIn(s, inodes, j, x)
      {
      }
    }

    /** A buffer from `kmalloc`: nothing is known but its length. */
    method Scratch() returns (buf: seq<nat>)
      ensures |buf| == s
    {
      buf := seq(s, _ => 0);
    }

    /** `find_free_block`: the lowest free block, now marked; fails iff there is none. */
    method FindFreeBlock() returns (ok: bool, b: nat)
      requires Valid()
      modifies this`bits, bm`blocks, this`owner
      ensures Valid()
      ensures ok <==> 0 < FreeCount(old(bits))
      ensures ok ==> b < total && !old(bits)[b] && forall c :: 0 <= c < b ==> old(bits)[c]
      ensures ok ==> bits == old(bits)[b := true] && FreeCount(bits) == FreeCount(old(bits)) - 1
      ensures ok ==> b !in old(owner) && first <= b && owner == old(owner)[b := Leak]
      ensures !ok ==> bits == old(bits) && owner == old(owner)
    {
      hide Rooted, Exact, Bitmaps.Full, Bitmaps.Sets, Bitmaps.Bit, Runs.Flat;
      BitmapThere();
      ghost var bytes := bm.Bytes();
      var err;
      err, b := bm.FindFree(total, true);
      LowestFree(bits, bytes, err, b);
      ok := err == Bitmaps.Success;
      if ok {
        AgreeSets(bits, bytes, bm.Bytes(), b, true);
        TakeFree(bits, b);
        bits := bits[b := true];
        LeakInv(s, total, first, disk, old(bits), inodes, owner, b);
        owner := owner[b := Leak];
      }
    }
  
    // -------------------------------------------------------------------------
    // Append
    // -------------------------------------------------------------------------

    /** File `id` is one block longer, `b` is that block, and nothing else moved. */
    ghost predicate Appended(disk0: Disk, inodes0: map<nat, Inode>, owner0: map<nat, Owner>, id: nat, b: nat)
      requires 0 < s && id in inodes0
      reads this
    {
      && id in inodes && inodes == inodes0[id := inodes[id]]
      && inodes[id].count == inodes0[id].count + 1
      && Stays(s, disk0, inodes0, disk, inodes)
      && Addr(disk, inodes[id], DataNode(s, inodes0[id].count)) == b
      && Adds(s, owner0, owner, id, inodes0[id].count, b)
    }

    /** No block was left for the append: all that were free are leaked, and no tree changed. */
    ghost predicate Starved(disk0: Disk, inodes0: map<nat, Inode>, owner0: map<nat, Owner>)
      reads this
    {
      && disk == disk0 && inodes == inodes0 && FreeCount(bits) == 0
      && OnlyLeaks(owner0, owner)
    }

    /** Commit an append: `links` are the new nodes' blocks. */
    ghost method Commit(disk0: Disk, inodes0: map<nat, Inode>, owner0: map<nat, Owner>, id: nat, b: nat, links: map<nat, Owner>)
      requires Inv(s, total, first, disk0, bits, inodes0, owner) && id in inodes0 && inodes0[id].count < Capacity(s)
      requires id in inodes && inodes == inodes0[id := inodes[id]] && Sizes(s, total, first, disk, bits, inodes)
      requires Grows(s, disk0, inodes0, owner, id, b, disk, inodes[id], links)
      requires Ready(owner0, owner, links, b) && Backed()
      modifies this`owner
      ensures Valid() && Appended(disk0, inodes0, owner0, id, b)
    {
      hide IsNew, Live, Stays, Addr, Inv, Places, Adds, Backed;
      ReadyAdds(s, owner0, owner, links, b, id, inodes0[id].count, disk, inodes[id]);
      GrowInv(s, total, first, disk0, bits, inodes0, owner, id, disk, inodes[id], links);
      owner := owner + links;
    }

    /** `allocate_block_for_file_inode` below 15 blocks. */
    method AppendInline(id: nat, b: nat)
      requires Valid() && id in inodes && inodes[id].count < SLOTS
      requires b in owner && owner[b] == Leak
      modifies this`inodes, this`owner
      ensures Valid() && Appended(old(disk), old(inodes), old(owner), id, b) && bits == old(bits)
    {
      hide Rooted, Exact, Capacity, DataNode, Ready, Grows, Backed;
      var ino := inodes[id];
      inodes := inodes[id := Inode(ino.count + 1, ino.slots[ino.count := b])];
      ghost var links: map<nat, Owner> := map[b := Tree(id, DataNode(s, ino.count))];
      ReadyFirst(owner, b, Tree(id, DataNode(s, ino.count)));
      CapacityLarge(s);
      InlineGrows(s, total, first, disk, bits, old(inodes), owner, id, b, inodes[id], links);
      Commit(old(disk), old(inodes), old(owner), id, b, links);
    }

    /** ...in the single pointer's range, with the promotion at 15. */
    method AppendSingle(id: nat, b: nat) returns (ok: bool)
      requires Valid() && id in inodes && SLOTS <= inodes[id].count < DIRECT + s
      requires b in owner && owner[b] == Leak
      modifies this`disk, this`bits, bm`blocks, this`inodes, this`owner
      ensures Valid()
      ensures ok <==> Needed(s, old(inodes)[id].count) <= FreeCount(old(bits)) + 1
      ensures ok ==> FreeCount(bits) == FreeCount(old(bits)) + 1 - Needed(s, old(inodes)[id].count)
      ensures ok ==> Appended(old(disk), old(inodes), old(owner), id, b)
      ensures !ok ==> Starved(old(disk), old(inodes), old(owner))
      ensures WritesOnly(old(disk), disk, old(owner), id)
    {
      hide Rooted, Exact, Marked, Capacity, Path, Ready, OnlyLeaks, Grows, Backed;
      var ino := inodes[id];
      var ptrData: seq<nat> := Scratch();
      var slots := ino.slots;
      ghost var links: map<nat, Owner> := map[b := Tree(id, DataNode(s, ino.count))];
      ReadyFirst(owner, b, Tree(id, DataNode(s, ino.count)));
      SmallPaths(s, ino.count);
      CapacityLarge(s);
      if ino.count == SLOTS {
        var ptr;
        ok, ptr := FindFreeBlock();
        if !ok {
          ReadyLeaks(old(owner), owner, links, b);
          return;
        }
        ReadyMore(old(owner), old(owner), links, b, ptr, Tree(id, P1));
        for i := 12 to 15
          invariant |ptrData| == s && forall j :: 12 <= j < i ==> ptrData[j - 12] == ino.slots[j]
        {
          ptrData := ptrData[i - 12 := ino.slots[i]];
        }
        slots := slots[12 := ptr];
        links := links[ptr := Tree(id, P1)];
      } else {
        LiveAddr(s, total, first, disk, bits, inodes, owner, id, P1);
        ptrData := disk[slots[12]];
      }
      ptrData := ptrData[ino.count - 12 := b];
      disk := disk[slots[12] := ptrData];
      inodes := inodes[id := Inode(ino.count + 1, slots)];
      if ino.count == SLOTS {
        PromoteGrows(s, total, first, old(disk), bits, old(inodes), owner, id, b, slots[12], ptrData, disk, inodes[id], links);
      } else {
        SingleGrows(s, total, first, old(disk), bits, old(inodes), owner, id, b, disk, inodes[id], links);
      }
      Commit(old(disk), old(inodes), old(owner), id, b, links);
      ok := true;
    }
  
    /** ...in the double pointer's range. */
    method AppendDouble(id: nat, b: nat) returns (ok: bool)
      requires Valid() && id in inodes && DIRECT + s <= inodes[id].count < DIRECT + s + Sq(s)
      requires b in owner && owner[b] == Leak
      modifies this`disk, this`bits, bm`blocks, this`inodes, this`owner
      ensures Valid()
      ensures ok <==> Needed(s, old(inodes)[id].count) <= FreeCount(old(bits)) + 1
      ensures ok ==> FreeCount(bits) == FreeCount(old(bits)) + 1 - Needed(s, old(inodes)[id].count)
      ensures ok ==> Appended(old(disk), old(inodes), old(owner), id, b)
      ensures !ok ==> Starved(old(disk), old(inodes), old(owner))
      ensures WritesOnly(old(disk), disk, old(owner), id)
    {
      hide WritesOnly, Appended, Starved;
      var ino := inodes[id];
      var numInDouble := ino.count - DIRECT - s;
      var index, singleIdx := Rem(numInDouble, s), Quot(numInDouble, s);
      PathInRange(s, ino.count);
      SmallPaths(s, ino.count);
      assert Path(s, ino.count) == Pos(2, 0, singleIdx, index) && ino.count < Capacity(s);
      if index == 0 && singleIdx == 0 {
        ok := AppendDoubleFirst(id, b);
      } else if index == 0 {
        ok := AppendDoubleNew(id, b, singleIdx);
      } else {
        AppendDoubleMid(id, b, singleIdx, index);
        ok := true;
      }
    }

    /** The last single pointer has room. */
    method AppendDoubleMid(id: nat, b: nat, singleIdx: nat, index: nat)
      requires Valid() && id in inodes && inodes[id].count < Capacity(s) && DIRECT + s <= inodes[id].count
      requires Path(s, inodes[id].count) == Pos(2, 0, singleIdx, index) && singleIdx < s && 0 < index < s
      requires b in owner && owner[b] == Leak
      modifies this`disk, this`bits, bm`blocks, this`inodes, this`owner
      ensures Valid() && bits == old(bits) && Appended(old(disk), old(inodes), old(owner), id, b)
      ensures WritesOnly(old(disk), disk, old(owner), id)
    {
      hide Rooted, Exact, Marked, Capacity, Path, Ready, OnlyLeaks, Grows, Stays, IsNew, Backed;
      var ino := inodes[id];
      LiveAddr(s, total, first, disk, bits, inodes, owner, id, P2);
      LiveAddr(s, total, first, disk, bits, inodes, owner, id, P2S(singleIdx));
      var single := disk[ino.slots[13]][singleIdx];
      assert single == Addr(disk, ino, P2S(singleIdx));
      disk := Put(disk, single, index, b);
      inodes := inodes[id := Inode(ino.count + 1, ino.slots)];
      ghost var links: map<nat, Owner> := map[b := Tree(id, N2(singleIdx, index))];
      ReadyFirst(owner, b, Tree(id, N2(singleIdx, index)));
      DoubleGrows(s, total, first, old(disk), bits, old(inodes), owner, id, b, disk, inodes[id], links);
      Commit(old(disk), old(inodes), old(owner), id, b, links);
    }

    /** The branch that needs a new pointer block under the double pointer. */
    method AppendDoubleNew(id: nat, b: nat, singleIdx: nat) returns (ok: bool)
      requires Valid() && id in inodes && inodes[id].count < Capacity(s) && DIRECT + s <= inodes[id].count
      requires Path(s, inodes[id].count) == Pos(2, 0, singleIdx, 0) && 0 < singleIdx < s
      requires b in owner && owner[b] == Leak
      modifies this`disk, this`bits, bm`blocks, this`inodes, this`owner
      ensures Valid()
      ensures ok <==> Needed(s, old(inodes)[id].count) <= FreeCount(old(bits)) + 1
      ensures ok ==> FreeCount(bits) == FreeCount(old(bits)) + 1 - Needed(s, old(inodes)[id].count)
      ensures ok ==> Appended(old(disk), old(inodes), old(owner), id, b)
      ensures !ok ==> Starved(old(disk), old(inodes), old(owner))
      ensures WritesOnly(old(disk), disk, old(owner), id)
    {
      hide Rooted, Exact, Marked, Capacity, Path, Ready, OnlyLeaks, Grows, Stays, FreeCount, IsNew, Backed;
      var ino := inodes[id];
      ghost var links: map<nat, Owner> := map[b := Tree(id, N2(singleIdx, 0))];
      ReadyFirst(owner, b, Tree(id, N2(singleIdx, 0)));
      ReadyLeaks(owner, owner, links, b);
      var single;
      ok, single := FindFreeBlock();
      if !ok {
        return;
      }
      ReadyMore(old(owner), old(owner), links, b, single, Tree(id, P2S(singleIdx)));
      links := links[single := Tree(id, P2S(singleIdx))];
      ReadyLeaks(old(owner), owner, links, b);
      LiveAddr(s, total, first, disk, bits, inodes, owner, id, P2);
      var slots := ino.slots;
      var doubleData := disk[slots[13]];
      doubleData := doubleData[singleIdx := single];
      disk := disk[slots[13] := doubleData];
      var ptrData: seq<nat> := Scratch();
      ptrData := ptrData[0 := b];
      disk := disk[single := ptrData];
      inodes := inodes[id := Inode(ino.count + 1, slots)];
      DoubleGrowsSingle(s, total, first, old(disk), bits, old(inodes), owner, id, b, disk, inodes[id], links, single, ptrData);
      Commit(old(disk), old(inodes), old(owner), id, b, links);
      ok := true;
    }

    /** The branch that also needs the double pointer itself. */
    method AppendDoubleFirst(id: nat, b: nat) returns (ok: bool)
      requires Valid() && id in inodes && inodes[id].count < Capacity(s) && DIRECT + s <= inodes[id].count
      requires Path(s, inodes[id].count) == Pos(2, 0, 0, 0) && 4 <= s
      requires b in owner && owner[b] == Leak
      modifies this`disk, this`bits, bm`blocks, this`inodes, this`owner
      ensures Valid()
      ensures ok <==> Needed(s, old(inodes)[id].count) <= FreeCount(old(bits)) + 1
      ensures ok ==> FreeCount(bits) == FreeCount(old(bits)) + 1 - Needed(s, old(inodes)[id].count)
      ensures ok ==> Appended(old(disk), old(inodes), old(owner), id, b)
      ensures !ok ==> Starved(old(disk), old(inodes), old(owner))
      ensures WritesOnly(old(disk), disk, old(owner), id)
    {
      hide Rooted, Exact, Marked, Capacity, Path, Ready, OnlyLeaks, Grows, Addr, Stays, FreeCount, IsNew, Live, Backed, WritesOnly;
      var ino := inodes[id];
      WroteFew(disk, disk, owner, id, {});
      ghost var links: map<nat, Owner> := map[b := Tree(id, N2(0, 0))];
      ReadyFirst(owner, b, Tree(id, N2(0, 0)));
      ReadyLeaks(owner, owner, links, b);
      var single;
      ok, single := FindFreeBlock();
      if !ok {
        return;
      }
      ReadyMore(old(owner), old(owner), links, b, single, Tree(id, P2S(0)));
      links := links[single := Tree(id, P2S(0))];
      ReadyLeaks(old(owner), owner, links, b);
      ghost var owner1 := owner;
      var dbl;
      ok, dbl := FindFreeBlock();
      if !ok {
        return;
      }
      ReadyMore(old(owner), owner1, links, b, dbl, Tree(id, P2));
      links := links[dbl := Tree(id, P2)];
      ReadyLeaks(old(owner), owner, links, b);
      LeafBound(single, dbl, dbl);
      LinkDoubleFirst(id, b, single, dbl, old(owner), links);
      ok := true;
    }

    /** The two new pointer blocks are written and hung into the inode. */
    method LinkDoubleFirst(id: nat, b: nat, single: nat, dbl: nat, ghost owner0: map<nat, Owner>, ghost links: map<nat, Owner>)
      requires Valid() && id in inodes && inodes[id].count < Capacity(s) && DIRECT + s <= inodes[id].count
      requires Path(s, inodes[id].count) == Pos(2, 0, 0, 0) && 4 <= s && single < |disk| && dbl < |disk|
      requires links == map[b := Tree(id, N2(0, 0)), single := Tree(id, P2S(0)), dbl := Tree(id, P2)]
      requires Ready(owner0, owner, links, b) && b != single && b != dbl && single != dbl
      modifies this`disk, this`inodes, this`owner
      ensures Valid() && Appended(old(disk), old(inodes), owner0, id, b) && WritesOnly(old(disk), disk, owner0, id)
    {
      hide Rooted, Exact, Marked, Capacity, Path, OnlyLeaks, Grows, Addr, Stays, IsNew, Live, Backed, WritesOnly;
      var ino := inodes[id];
      var slots := ino.slots[13 := dbl];
      var doubleData: seq<nat> := Scratch();
      doubleData := doubleData[0 := single];
      disk := disk[slots[13] := doubleData];
      var ptrData: seq<nat> := Scratch();
      ptrData := ptrData[0 := b];
      disk := disk[single := ptrData];
      inodes := inodes[id := Inode(ino.count + 1, slots)];
      WroteFew(old(disk), disk, owner0, id, {dbl, single});
      DoubleGrowsDouble(s, total, first, old(disk), bits, old(inodes), owner, id, b, disk, inodes[id], links, dbl, single, doubleData, ptrData);
      Commit(old(disk), old(inodes), owner0, id, b, links);
    }

    /** ...in the triple pointer's range. */
    method AppendTriple(id: nat, b: nat) returns (ok: bool)
      requires Valid() && id in inodes && DIRECT + s + Sq(s) <= inodes[id].count < Capacity(s)
      requires b in owner && owner[b] == Leak
      modifies this`disk, this`bits, bm`blocks, this`inodes, this`owner
      ensures Valid()
      ensures ok <==> Needed(s, old(inodes)[id].count) <= FreeCount(old(bits)) + 1
      ensures ok ==> FreeCount(bits) == FreeCount(old(bits)) + 1 - Needed(s, old(inodes)[id].count)
      ensures ok ==> Appended(old(disk), old(inodes), old(owner), id, b)
      ensures !ok ==> Starved(old(disk), old(inodes), old(owner))
      ensures WritesOnly(old(disk), disk, old(owner), id)
    {
      hide WritesOnly;
      var ino := inodes[id];
      SqLarge(s);
      var numInTriple := ino.count - DIRECT - s - Sq(s);
      var indexInDouble, doubleIdx := Rem(numInTriple, Sq(s)), Quot(numInTriple, Sq(s));
      var index, singleIdx := Rem(indexInDouble, s), Quot(indexInDouble, s);
      PathInRange(s, ino.count);
      SmallPaths(s, ino.count);
      LastPos(s, ino.count);
      assert Path(s, ino.count) == Pos(3, doubleIdx, singleIdx, index);
      if index == 0 && singleIdx == 0 && doubleIdx == 0 {
        ok := AppendTripleFirst(id, b);
      } else if index == 0 && singleIdx == 0 {
        ok := AppendTripleNewDouble(id, b, doubleIdx);
      } else if index == 0 {
        ok := AppendTripleNew(id, b, doubleIdx, singleIdx);
      } else {
        AppendTripleMid(id, b, doubleIdx, singleIdx, index);
        ok := true;
      }
    }

    /** The last single pointer has room. */
    method AppendTripleMid(id: nat, b: nat, doubleIdx: nat, singleIdx: nat, index: nat)
      requires Valid() && id in inodes && inodes[id].count < Capacity(s) && DIRECT + s <= inodes[id].count
      requires Path(s, inodes[id].count) == Pos(3, doubleIdx, singleIdx, index) && doubleIdx < s && singleIdx < s && 0 < index < s
      requires b in owner && owner[b] == Leak
      modifies this`disk, this`bits, bm`blocks, this`inodes, this`owner
      ensures Valid() && bits == old(bits) && Appended(old(disk), old(inodes), old(owner), id, b)
      ensures WritesOnly(old(disk), disk, old(owner), id)
    {
      hide Rooted, Exact, Marked, Capacity, Path, Ready, OnlyLeaks, Grows, Stays, IsNew, Backed;
      var ino := inodes[id];
      LiveAddr(s, total, first, disk, bits, inodes, owner, id, P3);
      LiveAddr(s, total, first, disk, bits, inodes, owner, id, P3D(doubleIdx));
      LiveAddr(s, total, first, disk, bits, inodes, owner, id, P3S(doubleIdx, singleIdx));
      var dbl := disk[ino.slots[14]][doubleIdx];
      assert dbl == Addr(disk, ino, P3D(doubleIdx));
      var single := disk[dbl][singleIdx];
      assert single == Addr(disk, ino, P3S(doubleIdx, singleIdx));
      disk := Put(disk, single, index, b);
      inodes := inodes[id := Inode(ino.count + 1, ino.slots)];
      ghost var links: map<nat, Owner> := map[b := Tree(id, N3(doubleIdx, singleIdx, index))];
      ReadyFirst(owner, b, Tree(id, N3(doubleIdx, singleIdx, index)));
      TripleGrows(s, total, first, old(disk), bits, old(inodes), owner, id, b, disk, inodes[id], links);
      Commit(old(disk), old(inodes), old(owner), id, b, links);
    }

    /** The branch that needs a new pointer block under an existing double pointer. */
    method AppendTripleNew(id: nat, b: nat, doubleIdx: nat, singleIdx: nat) returns (ok: bool)
      requires Valid() && id in inodes && inodes[id].count < Capacity(s) && DIRECT + s <= inodes[id].count
      requires Path(s, inodes[id].count) == Pos(3, doubleIdx, singleIdx, 0) && 0 < singleIdx < s && doubleIdx < s
      requires b in owner && owner[b] == Leak
      modifies this`disk, this`bits, bm`blocks, this`inodes, this`owner
      ensures Valid()
      ensures ok <==> Needed(s, old(inodes)[id].count) <= FreeCount(old(bits)) + 1
      ensures ok ==> FreeCount(bits) == FreeCount(old(bits)) + 1 - Needed(s, old(inodes)[id].count)
      ensures ok ==> Appended(old(disk), old(inodes), old(owner), id, b)
      ensures !ok ==> Starved(old(disk), old(inodes), old(owner))
      ensures WritesOnly(old(disk), disk, old(owner), id)
    {
      hide Rooted, Exact, Marked, Capacity, Path, Ready, OnlyLeaks, Grows, Stays, FreeCount, IsNew, Backed;
      var ino := inodes[id];
      ghost var links: map<nat, Owner> := map[b := Tree(id, N3(doubleIdx, singleIdx, 0))];
      ReadyFirst(owner, b, Tree(id, N3(doubleIdx, singleIdx, 0)));
      ReadyLeaks(owner, owner, links, b);
      var single;
      ok, single := FindFreeBlock();
      if !ok {
        return;
      }
      ReadyMore(old(owner), old(owner), links, b, single, Tree(id, P3S(doubleIdx, singleIdx)));
      links := links[single := Tree(id, P3S(doubleIdx, singleIdx))];
      ReadyLeaks(old(owner), owner, links, b);
      LiveAddr(s, total, first, disk, bits, inodes, owner, id, P3);
      LiveAddr(s, total, first, disk, bits, inodes, owner, id, P3D(doubleIdx));
      var slots := ino.slots;
      var dbl := disk[slots[14]][doubleIdx];
      assert dbl == Addr(disk, ino, P3D(doubleIdx));
      var doubleData := disk[dbl];
      doubleData := doubleData[singleIdx := single];
      disk := disk[dbl := doubleData];
      var ptrData: seq<nat> := Scratch();
      ptrData := ptrData[0 := b];
      disk := disk[single := ptrData];
      inodes := inodes[id := Inode(ino.count + 1, slots)];
      TripleGrowsSingle(s, total, first, old(disk), bits, old(inodes), owner, id, b, disk, inodes[id], links, single, ptrData);
      Commit(old(disk), old(inodes), old(owner), id, b, links);
      ok := true;
    }

    /** The branch that needs a new double pointer under the existing triple pointer. */
    method AppendTripleNewDouble(id: nat, b: nat, doubleIdx: nat) returns (ok: bool)
      requires Valid() && id in inodes && inodes[id].count < Capacity(s) && DIRECT + s <= inodes[id].count
      requires Path(s, inodes[id].count) == Pos(3, doubleIdx, 0, 0) && 0 < doubleIdx < s
      requires b in owner && owner[b] == Leak
      modifies this`disk, this`bits, bm`blocks, this`inodes, this`owner
      ensures Valid()
      ensures ok <==> Needed(s, old(inodes)[id].count) <= FreeCount(old(bits)) + 1
      ensures ok ==> FreeCount(bits) == FreeCount(old(bits)) + 1 - Needed(s, old(inodes)[id].count)
      ensures ok ==> Appended(old(disk), old(inodes), old(owner), id, b)
      ensures !ok ==> Starved(old(disk), old(inodes), old(owner))
      ensures WritesOnly(old(disk), disk, old(owner), id)
    {
      hide Rooted, Exact, Marked, Capacity, Path, Ready, OnlyLeaks, Grows, Stays, FreeCount, IsNew, Backed, WritesOnly;
      var ino := inodes[id];
      WroteFew(disk, disk, owner, id, {});
      ghost var links: map<nat, Owner> := map[b := Tree(id, N3(doubleIdx, 0, 0))];
      ReadyFirst(owner, b, Tree(id, N3(doubleIdx, 0, 0)));
      ReadyLeaks(owner, owner, links, b);
      var single;
      ok, single := FindFreeBlock();
      if !ok {
        return;
      }
      ReadyMore(old(owner), old(owner), links, b, single, Tree(id, P3S(doubleIdx, 0)));
      links := links[single := Tree(id, P3S(doubleIdx, 0))];
      ReadyLeaks(old(owner), owner, links, b);
      ghost var owner1 := owner;
      var dbl;
      ok, dbl := FindFreeBlock();
      if !ok {
        return;
      }
      ReadyMore(old(owner), owner1, links, b, dbl, Tree(id, P3D(doubleIdx)));
      links := links[dbl := Tree(id, P3D(doubleIdx))];
      ReadyLeaks(old(owner), owner, links, b);
      LeafBound(single, dbl, dbl);
      LinkTripleDouble(id, b, doubleIdx, single, dbl, old(owner), links);
      ok := true;
    }

    lemma TripleRoot(id: nat, doubleIdx: nat)
      requires Valid() && id in inodes && Path(s, inodes[id].count) == Pos(3, doubleIdx, 0, 0) && 0 < doubleIdx < s
      ensures var b := inodes[id].slots[14]; b < total && b in owner && owner[b] == Tree(id, P3) && |disk[b]| == s
    {
      hide Rooted, Exact, Marked, Capacity, Path, Backed;
      LiveAddr(s, total, first, disk, bits, inodes, owner, id, P3);
    }

    /** The two new pointer blocks are written and hung below the triple pointer. */
    method LinkTripleDouble(id: nat, b: nat, doubleIdx: nat, single: nat, dbl: nat, ghost owner0: map<nat, Owner>, ghost links: map<nat, Owner>)
      requires Valid() && id in inodes && inodes[id].count < Capacity(s) && DIRECT + s <= inodes[id].count
      requires Path(s, inodes[id].count) == Pos(3, doubleIdx, 0, 0) && 0 < doubleIdx < s && single < |disk| && dbl < |disk|
      requires links == map[b := Tree(id, N3(doubleIdx, 0, 0)), single := Tree(id, P3S(doubleIdx, 0)), dbl := Tree(id, P3D(doubleIdx))]
      requires Ready(owner0, owner, links, b) && b != single && b != dbl && single != dbl
      modifies this`disk, this`inodes, this`owner
      ensures Valid() && Appended(old(disk), old(inodes), owner0, id, b) && WritesOnly(old(disk), disk, owner0, id)
    {
      hide Rooted, Exact, Marked, Capacity, Path, OnlyLeaks, Grows, Stays, IsNew, Backed, WritesOnly, Addr, Live, Sizes;
      var ino := inodes[id];
      Basics(id);
      TripleRoot(id, doubleIdx);
      var slots := ino.slots;
      var tripleData := disk[slots[14]];
      tripleData := tripleData[doubleIdx := dbl];
      disk := disk[slots[14] := tripleData];
      var doubleData: seq<nat> := Scratch();
      doubleData := doubleData[0 := single];
      disk := disk[dbl := doubleData];
      var ptrData: seq<nat> := Scratch();
      ptrData := ptrData[0 := b];
      disk := disk[single := ptrData];
      inodes := inodes[id := Inode(ino.count + 1, slots)];
      WroteThree(s, total, first, old(disk), bits, old(inodes), disk, owner0, id, inodes[id], slots[14], dbl, single, tripleData, doubleData, ptrData);
      TripleGrowsDouble(s, total, first, old(disk), bits, old(inodes), owner, id, b, disk, inodes[id], links, dbl, single, doubleData, ptrData);
      Commit(old(disk), old(inodes), owner0, id, b, links);
    }

    /** The branch that also needs the triple pointer itself. */
    method AppendTripleFirst(id: nat, b: nat) returns (ok: bool)
      requires Valid() && id in inodes && inodes[id].count < Capacity(s) && DIRECT + s <= inodes[id].count
      requires Path(s, inodes[id].count) == Pos(3, 0, 0, 0) && 4 <= s
      requires b in owner && owner[b] == Leak
      modifies this`disk, this`bits, bm`blocks, this`inodes, this`owner
      ensures Valid()
      ensures ok <==> Needed(s, old(inodes)[id].count) <= FreeCount(old(bits)) + 1
      ensures ok ==> FreeCount(bits) == FreeCount(old(bits)) + 1 - Needed(s, old(inodes)[id].count)
      ensures ok ==> Appended(old(disk), old(inodes), old(owner), id, b)
      ensures !ok ==> Starved(old(disk), old(inodes), old(owner))
      ensures WritesOnly(old(disk), disk, old(owner), id)
    {
      hide Rooted, Exact, Marked, Capacity, Path, Ready, OnlyLeaks, Grows, Addr, Stays, FreeCount, IsNew, Live, Backed;
      var ino := inodes[id];
      ghost var links: map<nat, Owner> := map[b := Tree(id, N3(0, 0, 0))];
      ReadyFirst(owner, b, Tree(id, N3(0, 0, 0)));
      ReadyLeaks(owner, owner, links, b);
      var single;
      ok, single := FindFreeBlock();
      if !ok {
        return;
      }
      ReadyMore(old(owner), old(owner), links, b, single, Tree(id, P3S(0, 0)));
      links := links[single := Tree(id, P3S(0, 0))];
      ReadyLeaks(old(owner), owner, links, b);
      ghost var owner1 := owner;
      var dbl;
      ok, dbl := FindFreeBlock();
      if !ok {
        return;
      }
      ReadyMore(old(owner), owner1, links, b, dbl, Tree(id, P3D(0)));
      links := links[dbl := Tree(id, P3D(0))];
      ReadyLeaks(old(owner), owner, links, b);
      ghost var owner2 := owner;
      var triple;
      ok, triple := FindFreeBlock();
      if !ok {
        return;
      }
      ReadyMore(old(owner), owner2, links, b, triple, Tree(id, P3));
      links := links[triple := Tree(id, P3)];
      ReadyLeaks(old(owner), owner, links, b);
      LeafBound(single, dbl, triple);
      LinkTripleFirst(id, b, single, dbl, triple, old(owner), links);
      ok := true;
    }

    /** Blocks in use are on the disk. */
    lemma LeafBound(x: nat, y: nat, z: nat)
      requires Valid() && x in owner && y in owner && z in owner
      ensures x < |disk| && y < |disk| && z < |disk|
    {
      hide Rooted, Exact;
    }

    /** The three new pointer blocks are written and hung into the inode. */
    method LinkTripleFirst(id: nat, b: nat, single: nat, dbl: nat, triple: nat, ghost owner0: map<nat, Owner>, ghost links: map<nat, Owner>)
      requires Valid() && id in inodes && inodes[id].count < Capacity(s) && DIRECT + s <= inodes[id].count
      requires Path(s, inodes[id].count) == Pos(3, 0, 0, 0) && 4 <= s && single < |disk| && dbl < |disk| && triple < |disk|
      requires links == map[b := Tree(id, N3(0, 0, 0)), single := Tree(id, P3S(0, 0)), dbl := Tree(id, P3D(0)), triple := Tree(id, P3)]
      requires Ready(owner0, owner, links, b)
      requires b != single && b != dbl && b != triple && single != dbl && single != triple && dbl != triple
      modifies this`disk, this`inodes, this`owner
      ensures Valid() && Appended(old(disk), old(inodes), owner0, id, b)
      ensures WritesOnly(old(disk), disk, owner0, id)
    {
      hide Rooted, Exact, Marked, Capacity, Path, OnlyLeaks, Grows, Addr, Stays, IsNew, Live, Backed, WritesOnly, Sizes;
      var ino := inodes[id];
      Basics(id);
      var slots := ino.slots[14 := triple];
      var tripleData: seq<nat> := Scratch();
      tripleData := tripleData[0 := dbl];
      disk := disk[slots[14] := tripleData];
      var doubleData: seq<nat> := Scratch();
      doubleData := doubleData[0 := single];
      disk := disk[dbl := doubleData];
      var ptrData: seq<nat> := Scratch();
      ptrData := ptrData[0 := b];
      disk := disk[single := ptrData];
      inodes := inodes[id := Inode(ino.count + 1, slots)];
      WroteThree(s, total, first, old(disk), bits, old(inodes), disk, owner0, id, inodes[id], triple, dbl, single, tripleData, doubleData, ptrData);
      TripleGrowsTriple(s, total, first, old(disk), bits, old(inodes), owner, id, b, disk, inodes[id], links, triple, dbl, single, tripleData, doubleData, ptrData);
      Commit(old(disk), old(inodes), owner0, id, b, links);
    }
  
    // -------------------------------------------------------------------------
    // Remove
    // -------------------------------------------------------------------------

    /** File `id` is one block shorter, exactly the blocks of that last step of growth are given up, and
        nothing else moved. */
    ghost predicate Removed(disk0: Disk, inodes0: map<nat, Inode>, owner0: map<nat, Owner>, id: nat)
      requires 0 < s && id in inodes0
      reads this
    {
      && id in inodes && inodes == inodes0[id := inodes[id]]
      && inodes[id].count + 1 == inodes0[id].count
      && Shrinks(s, disk0, inodes0, id, disk, inodes[id])
      && owner == owner0 - Gone(s, owner0, id, inodes[id].count)
    }

    /** `set_block_allocated(b, 0)`. */
    method FreeBlock(b: nat)
      requires b < total == |bits| && Backed()
      modifies this`bits, bm`blocks
      ensures bits == old(bits)[b := false] && Backed()
    {
      hide Bitmaps.Sets, Bitmaps.Bit, Runs.Flat;
      ghost var bytes := bm.Bytes();
      var err := bm.SetBit(total, b, false);
      AgreeSets(bits, bytes, bm.Bytes(), b, false);
      bits := bits[b := false];
    }

    lemma BitmapThere()
      requires Valid()
      ensures |bits| == total && 0 < total && bm.blocks != []
    {
      hide Rooted, Exact;
    }

    ghost method CommitRemoval(disk0: Disk, bits0: seq<bool>, inodes0: map<nat, Inode>, id: nat)
      requires Inv(s, total, first, disk0, bits0, inodes0, owner) && id in inodes0 && 0 < inodes0[id].count
      requires id in inodes && inodes == inodes0[id := inodes[id]] && Sizes(s, total, first, disk, bits, inodes)
      requires inodes[id].count + 1 == inodes0[id].count && Shrinks(s, disk0, inodes0, id, disk, inodes[id])
      requires Cleared(bits0, bits, Gone(s, owner, id, inodes[id].count)) && Backed()
      modifies this`owner
      ensures Valid() && Removed(disk0, inodes0, old(owner), id)
    {
      hide Live, Stays, Addr, IsNew, Rooted, Exact, Backed;
      ShrinkInv(s, total, first, disk0, bits0, inodes0, owner, id, disk, inodes[id], Gone(s, owner, id, inodes[id].count), bits);
      owner := owner - Gone(s, owner, id, inodes[id].count);
    }

    /** `remove_last_block_inode` up to 15 blocks. */
    method RemoveInline(id: nat)
      requires Valid() && id in inodes && 0 < inodes[id].count <= SLOTS
      modifies this`disk, this`bits, bm`blocks, this`inodes, this`owner
      ensures Valid() && Removed(old(disk), old(inodes), old(owner), id)
      ensures WritesOnly(old(disk), disk, old(owner), id) && Wiped(s, disk, inodes[id])
    {
      hide Rooted, Exact, Path, Capacity, Shrinks, Backed;
      var ino := inodes[id];
      var idx := ino.count - 1;
      SmallPaths(s, idx);
      ghost var x := DataNode(s, idx);
      GoneOne(s, total, first, disk, bits, inodes, owner, id, idx, Path(s, idx));
      assert Addr(disk, ino, x) == ino.slots[idx];
      FreeBlock(ino.slots[idx]);
      inodes := inodes[id := Inode(idx, ino.slots[idx := 0])];
      ghost var d := ino.slots[idx];
      ClearedBy(old(bits), bits, Gone(s, owner, id, idx), d, d, d, d);
      WipeShrinks(s, total, first, disk, old(bits), old(inodes), owner, id, disk, inodes[id], total, P1);
      CommitRemoval(old(disk), old(bits), old(inodes), id);
    }

    /** ...from 16 to 15 blocks: the single pointer is dissolved. */
    method RemoveDemote(id: nat)
      requires Valid() && id in inodes && inodes[id].count == 16
      modifies this`disk, this`bits, bm`blocks, this`inodes, this`owner
      ensures Valid() && Removed(old(disk), old(inodes), old(owner), id)
      ensures WritesOnly(old(disk), disk, old(owner), id) && Wiped(s, disk, inodes[id])
    {
      var ino := inodes[id];
      SmallPaths(s, 15);
      GonePromoted(s, total, first, disk, bits, inodes, owner, id, 15, Path(s, 15));
      var single := ino.slots[12];
      assert Addr(disk, ino, P1) == single;
      var singleData := disk[single];
      FreeBlock(singleData[3]);
      var slots: seq<nat> := ino.slots[12 := singleData[0]][13 := singleData[1]][14 := singleData[2]];
      FreeBlock(single);
      inodes := inodes[id := Inode(15, slots)];
      ClearedBy(old(bits), bits, Gone(s, owner, id, 15), singleData[3], single, single, single);
      DemoteShrinks(s, total, first, disk, old(bits), old(inodes), owner, id, inodes[id]);
      CommitRemoval(old(disk), old(bits), old(inodes), id);
    }

    /** ...in the single pointer's range. */
    method RemoveSingle(id: nat)
      requires Valid() && id in inodes && 16 < inodes[id].count <= DIRECT + s
      modifies this`disk, this`bits, bm`blocks, this`inodes, this`owner
      ensures Valid() && Removed(old(disk), old(inodes), old(owner), id)
      ensures WritesOnly(old(disk), disk, old(owner), id) && Wiped(s, disk, inodes[id])
    {
      hide Rooted, Exact, Path, Capacity, Shrinks, Backed;
      var ino := inodes[id];
      var idx := ino.count - 1;
      SmallPaths(s, idx);
      ghost var x := N1(idx - DIRECT);
      GoneOne(s, total, first, disk, bits, inodes, owner, id, idx, Path(s, idx));
      assert Live(s, ino.count, P1) by { LiveSucc(s, idx, P1); }
      LiveAddr(s, total, first, disk, bits, inodes, owner, id, P1);
      var single := ino.slots[12];
      assert Addr(disk, ino, P1) == single;
      FreeBlock(disk[single][idx - DIRECT]);
      ghost var d := disk[single][idx - DIRECT];
      ClearedBy(old(bits), bits, Gone(s, owner, id, idx), d, d, d, d);
      disk := Put(disk, single, idx - DIRECT, 0);
      inodes := inodes[id := Inode(idx, ino.slots)];
      WipeShrinks(s, total, first, old(disk), old(bits), old(inodes), owner, id, disk, inodes[id], single, x);
      CommitRemoval(old(disk), old(bits), old(inodes), id);
    }
  
    /** ...in the double pointer's range. */
    method RemoveDouble(id: nat)
      requires Valid() && id in inodes && DIRECT + s < inodes[id].count <= DIRECT + s + Sq(s)
      modifies this`disk, this`bits, bm`blocks, this`inodes, this`owner
      ensures Valid() && Removed(old(disk), old(inodes), old(owner), id)
      ensures WritesOnly(old(disk), disk, old(owner), id) && Wiped(s, disk, inodes[id])
    {
      var idx := inodes[id].count - 1;
      var numInDouble := idx - DIRECT - s;
      var index, singleIdx := Rem(numInDouble, s), Quot(numInDouble, s);
      PathInRange(s, idx);
      assert Path(s, idx) == Pos(2, 0, singleIdx, index);
      if index != 0 {
        RemoveDoubleMid(id, singleIdx, index);
      } else if singleIdx != 0 {
        RemoveDoubleSingle(id, singleIdx);
      } else {
        RemoveDoubleFirst(id);
      }
    }

    /** The pointer block keeps other entries. */
    method RemoveDoubleMid(id: nat, singleIdx: nat, index: nat)
      requires Valid() && id in inodes && 0 < inodes[id].count && SLOTS < inodes[id].count - 1
      requires Path(s, inodes[id].count - 1) == Pos(2, 0, singleIdx, index) && singleIdx < s && 0 < index < s
      modifies this`disk, this`bits, bm`blocks, this`inodes, this`owner
      ensures Valid() && Removed(old(disk), old(inodes), old(owner), id)
      ensures WritesOnly(old(disk), disk, old(owner), id) && Wiped(s, disk, inodes[id])
    {
      hide Rooted, Exact, Marked, Path, Capacity, Live, Shrinks, Backed;
      var ino := inodes[id];
      ghost var n := ino.count - 1;
      GoneOne(s, total, first, disk, bits, inodes, owner, id, n, Path(s, n));
      DataLive(s, ino.count, n);
      ParentLive(s, ino.count, N2(singleIdx, index));
      LiveAddr(s, total, first, disk, bits, inodes, owner, id, P2S(singleIdx));
      ParentLive(s, ino.count, P2S(singleIdx));
      LiveAddr(s, total, first, disk, bits, inodes, owner, id, P2);
      var single := disk[ino.slots[13]][singleIdx];
      assert Addr(disk, ino, P2) == ino.slots[13] && Addr(disk, ino, P2S(singleIdx)) == single;
      var block := disk[single][index];
      assert Addr(disk, ino, N2(singleIdx, index)) == block;
      FreeBlock(block);
      disk := Put(disk, single, index, 0);
      inodes := inodes[id := Inode(ino.count - 1, ino.slots)];
      ClearedBy(old(bits), bits, Gone(s, owner, id, n), block, block, block, block);
      WipeShrinks(s, total, first, old(disk), old(bits), old(inodes), owner, id, disk, inodes[id], single, N2(singleIdx, index));
      CommitRemoval(old(disk), old(bits), old(inodes), id);
    }

    /** The pointer block goes too. */
    method RemoveDoubleSingle(id: nat, singleIdx: nat)
      requires Valid() && id in inodes && 0 < inodes[id].count && SLOTS < inodes[id].count - 1
      requires Path(s, inodes[id].count - 1) == Pos(2, 0, singleIdx, 0) && 0 < singleIdx < s
      modifies this`disk, this`bits, bm`blocks, this`inodes, this`owner
      ensures Valid() && Removed(old(disk), old(inodes), old(owner), id)
      ensures WritesOnly(old(disk), disk, old(owner), id) && Wiped(s, disk, inodes[id])
    {
      hide Rooted, Exact, Marked, Path, Capacity, Live, Shrinks, Backed;
      var ino := inodes[id];
      ghost var n := ino.count - 1;
      GoneDouble2(s, total, first, disk, bits, inodes, owner, id, n, Path(s, n));
      DataLive(s, ino.count, n);
      ParentLive(s, ino.count, N2(singleIdx, 0));
      LiveAddr(s, total, first, disk, bits, inodes, owner, id, P2S(singleIdx));
      ParentLive(s, ino.count, P2S(singleIdx));
      LiveAddr(s, total, first, disk, bits, inodes, owner, id, P2);
      var dbl := ino.slots[13];
      var single := disk[dbl][singleIdx];
      assert Addr(disk, ino, P2) == dbl && Addr(disk, ino, P2S(singleIdx)) == single;
      var block := disk[single][0];
      assert Addr(disk, ino, N2(singleIdx, 0)) == block;
      FreeBlock(block);
      FreeBlock(single);
      disk := Put(disk, dbl, singleIdx, 0);
      inodes := inodes[id := Inode(ino.count - 1, ino.slots)];
      ClearedBy(old(bits), bits, Gone(s, owner, id, n), block, single, single, single);
      WipeShrinks(s, total, first, old(disk), old(bits), old(inodes), owner, id, disk, inodes[id], dbl, P2S(singleIdx));
      CommitRemoval(old(disk), old(bits), old(inodes), id);
    }

    /** The double pointer goes too. */
    method RemoveDoubleFirst(id: nat)
      requires Valid() && id in inodes && 0 < inodes[id].count && SLOTS < inodes[id].count - 1
      requires Path(s, inodes[id].count - 1) == Pos(2, 0, 0, 0) && 4 <= s
      modifies this`disk, this`bits, bm`blocks, this`inodes, this`owner
      ensures Valid() && Removed(old(disk), old(inodes), old(owner), id)
      ensures WritesOnly(old(disk), disk, old(owner), id) && Wiped(s, disk, inodes[id])
    {
      hide Backed;
      assert total !in owner;
      var ino := inodes[id];
      ghost var n := ino.count - 1;
      GoneDouble3(s, total, first, disk, bits, inodes, owner, id, n, Path(s, n));
      DataLive(s, ino.count, n);
      ParentLive(s, ino.count, N2(0, 0));
      LiveAddr(s, total, first, disk, bits, inodes, owner, id, P2S(0));
      ParentLive(s, ino.count, P2S(0));
      LiveAddr(s, total, first, disk, bits, inodes, owner, id, P2);
      var dbl := ino.slots[13];
      var single := disk[dbl][0];
      assert Addr(disk, ino, P2) == dbl && Addr(disk, ino, P2S(0)) == single;
      var block := disk[single][0];
      assert Addr(disk, ino, N2(0, 0)) == block;
      FreeBlock(block);
      FreeBlock(single);
      FreeBlock(dbl);
      inodes := inodes[id := Inode(ino.count - 1, ino.slots[13 := 0])];
      DeadSlot(s, ino, inodes[id], n, P2, 13);
      ClearedBy(old(bits), bits, Gone(s, owner, id, n), block, single, dbl, dbl);
      WipeShrinks(s, total, first, old(disk), old(bits), old(inodes), owner, id, disk, inodes[id], total, P1);
      CommitRemoval(old(disk), old(bits), old(inodes), id);
    }

    /** ...in the triple pointer's range. */
    method RemoveTriple(id: nat)
      requires Valid() && id in inodes && DIRECT + s + Sq(s) < inodes[id].count
      modifies this`disk, this`bits, bm`blocks, this`inodes, this`owner
      ensures Valid() && Removed(old(disk), old(inodes), old(owner), id)
      ensures WritesOnly(old(disk), disk, old(owner), id) && Wiped(s, disk, inodes[id])
    {
      var idx := inodes[id].count - 1;
      SqLarge(s);
      var numInTriple := idx - DIRECT - s - Sq(s);
      var indexInDouble, doubleIdx := Rem(numInTriple, Sq(s)), Quot(numInTriple, Sq(s));
      var index, singleIdx := Rem(indexInDouble, s), Quot(indexInDouble, s);
      PathInRange(s, idx);
      LastPos(s, idx);
      assert Path(s, idx) == Pos(3, doubleIdx, singleIdx, index);
      if index != 0 {
        RemoveTripleMid(id, doubleIdx, singleIdx, index);
      } else if singleIdx != 0 {
        RemoveTripleSingle(id, doubleIdx, singleIdx);
      } else if doubleIdx != 0 {
        RemoveTripleDouble(id, doubleIdx);
      } else {
        RemoveTripleFirst(id);
      }
    }

    /** The pointer block keeps other entries. */
    method RemoveTripleMid(id: nat, doubleIdx: nat, singleIdx: nat, index: nat)
      requires Valid() && id in inodes && 0 < inodes[id].count && SLOTS < inodes[id].count - 1
      requires Path(s, inodes[id].count - 1) == Pos(3, doubleIdx, singleIdx, index) && doubleIdx < s && singleIdx < s && 0 < index < s
      modifies this`disk, this`bits, bm`blocks, this`inodes, this`owner
      ensures Valid() && Removed(old(disk), old(inodes), old(owner), id)
      ensures WritesOnly(old(disk), disk, old(owner), id) && Wiped(s, disk, inodes[id])
    {
      hide Rooted, Exact, Marked, Path, Capacity, Live, Shrinks, Backed;
      var ino := inodes[id];
      ghost var n := ino.count - 1;
      GoneOne(s, total, first, disk, bits, inodes, owner, id, n, Path(s, n));
      DataLive(s, ino.count, n);
      ParentLive(s, ino.count, N3(doubleIdx, singleIdx, index));
      LiveAddr(s, total, first, disk, bits, inodes, owner, id, P3S(doubleIdx, singleIdx));
      ParentLive(s, ino.count, P3S(doubleIdx, singleIdx));
      LiveAddr(s, total, first, disk, bits, inodes, owner, id, P3D(doubleIdx));
      ParentLive(s, ino.count, P3D(doubleIdx));
      LiveAddr(s, total, first, disk, bits, inodes, owner, id, P3);
      var dbl := disk[ino.slots[14]][doubleIdx];
      assert Addr(disk, ino, P3) == ino.slots[14] && Addr(disk, ino, P3D(doubleIdx)) == dbl;
      var single := disk[dbl][singleIdx];
      assert Addr(disk, ino, P3S(doubleIdx, singleIdx)) == single;
      var block := disk[single][index];
      assert Addr(disk, ino, N3(doubleIdx, singleIdx, index)) == block;
      FreeBlock(block);
      disk := Put(disk, single, index, 0);
      inodes := inodes[id := Inode(ino.count - 1, ino.slots)];
      ClearedBy(old(bits), bits, Gone(s, owner, id, n), block, block, block, block);
      WipeShrinks(s, total, first, old(disk), old(bits), old(inodes), owner, id, disk, inodes[id], single, N3(doubleIdx, singleIdx, index));
      CommitRemoval(old(disk), old(bits), old(inodes), id);
    }

    /** The pointer block goes too. */
    method RemoveTripleSingle(id: nat, doubleIdx: nat, singleIdx: nat)
      requires Valid() && id in inodes && 0 < inodes[id].count && SLOTS < inodes[id].count - 1
      requires Path(s, inodes[id].count - 1) == Pos(3, doubleIdx, singleIdx, 0) && doubleIdx < s && 0 < singleIdx < s
      modifies this`disk, this`bits, bm`blocks, this`inodes, this`owner
      ensures Valid() && Removed(old(disk), old(inodes), old(owner), id)
      ensures WritesOnly(old(disk), disk, old(owner), id) && Wiped(s, disk, inodes[id])
    {
      hide Rooted, Exact, Marked, Path, Capacity, Live, Shrinks, Backed;
      var ino := inodes[id];
      ghost var n := ino.count - 1;
      GoneTriple2(s, total, first, disk, bits, inodes, owner, id, n, Path(s, n));
      DataLive(s, ino.count, n);
      ParentLive(s, ino.count, N3(doubleIdx, singleIdx, 0));
      LiveAddr(s, total, first, disk, bits, inodes, owner, id, P3S(doubleIdx, singleIdx));
      ParentLive(s, ino.count, P3S(doubleIdx, singleIdx));
      LiveAddr(s, total, first, disk, bits, inodes, owner, id, P3D(doubleIdx));
      ParentLive(s, ino.count, P3D(doubleIdx));
      LiveAddr(s, total, first, disk, bits, inodes, owner, id, P3);
      var dbl := disk[ino.slots[14]][doubleIdx];
      assert Addr(disk, ino, P3) == ino.slots[14] && Addr(disk, ino, P3D(doubleIdx)) == dbl;
      var single := disk[dbl][singleIdx];
      assert Addr(disk, ino, P3S(doubleIdx, singleIdx)) == single;
      var block := disk[single][0];
      assert Addr(disk, ino, N3(doubleIdx, singleIdx, 0)) == block;
      FreeBlock(block);
      FreeBlock(single);
      disk := Put(disk, dbl, singleIdx, 0);
      inodes := inodes[id := Inode(ino.count - 1, ino.slots)];
      ClearedBy(old(bits), bits, Gone(s, owner, id, n), block, single, single, single);
      WipeShrinks(s, total, first, old(disk), old(bits), old(inodes), owner, id, disk, inodes[id], dbl, P3S(doubleIdx, singleIdx));
      CommitRemoval(old(disk), old(bits), old(inodes), id);
    }

    /** The double pointer goes too. */
    method RemoveTripleDouble(id: nat, doubleIdx: nat)
      requires Valid() && id in inodes && 0 < inodes[id].count && SLOTS < inodes[id].count - 1
      requires Path(s, inodes[id].count - 1) == Pos(3, doubleIdx, 0, 0) && 0 < doubleIdx < s
      modifies this`disk, this`bits, bm`blocks, this`inodes, this`owner
      ensures Valid() && Removed(old(disk), old(inodes), old(owner), id)
      ensures WritesOnly(old(disk), disk, old(owner), id) && Wiped(s, disk, inodes[id])
    {
      hide Rooted, Exact, Marked, Path, Capacity, Live, Shrinks, Backed;
      var ino := inodes[id];
      ghost var n := ino.count - 1;
      GoneTriple3(s, total, first, disk, bits, inodes, owner, id, n, Path(s, n));
      DataLive(s, ino.count, n);
      ParentLive(s, ino.count, N3(doubleIdx, 0, 0));
      LiveAddr(s, total, first, disk, bits, inodes, owner, id, P3S(doubleIdx, 0));
      ParentLive(s, ino.count, P3S(doubleIdx, 0));
      LiveAddr(s, total, first, disk, bits, inodes, owner, id, P3D(doubleIdx));
      ParentLive(s, ino.count, P3D(doubleIdx));
      LiveAddr(s, total, first, disk, bits, inodes, owner, id, P3);
      var triple := ino.slots[14];
      var dbl := disk[triple][doubleIdx];
      assert Addr(disk, ino, P3) == triple && Addr(disk, ino, P3D(doubleIdx)) == dbl;
      var single := disk[dbl][0];
      assert Addr(disk, ino, P3S(doubleIdx, 0)) == single;
      var block := disk[single][0];
      assert Addr(disk, ino, N3(doubleIdx, 0, 0)) == block;
      FreeBlock(block);
      FreeBlock(single);
      FreeBlock(dbl);
      disk := Put(disk, triple, doubleIdx, 0);
      inodes := inodes[id := Inode(ino.count - 1, ino.slots)];
      ClearedBy(old(bits), bits, Gone(s, owner, id, n), block, single, dbl, dbl);
      WipeShrinks(s, total, first, old(disk), old(bits), old(inodes), owner, id, disk, inodes[id], triple, P3D(doubleIdx));
      CommitRemoval(old(disk), old(bits), old(inodes), id);
    }

    /** The triple pointer goes too. */
    method RemoveTripleFirst(id: nat)
      requires Valid() && id in inodes && 0 < inodes[id].count && SLOTS < inodes[id].count - 1
      requires Path(s, inodes[id].count - 1) == Pos(3, 0, 0, 0) && 4 <= s
      modifies this`disk, this`bits, bm`blocks, this`inodes, this`owner
      ensures Valid() && Removed(old(disk), old(inodes), old(owner), id)
      ensures WritesOnly(old(disk), disk, old(owner), id) && Wiped(s, disk, inodes[id])
    {
      hide Rooted, Exact, Marked, Path, Capacity, Live, Addr, Gone, Listed, LiveAt, Cleared, Backed;
      TripleFirstAt(id);
      var ino := inodes[id];
      ghost var n := ino.count - 1;
      var triple := ino.slots[14];
      var dbl := disk[triple][0];
      var single := disk[dbl][0];
      var block := disk[single][0];
      FreeBlock(block);
      FreeBlock(single);
      FreeBlock(dbl);
      FreeBlock(triple);
      inodes := inodes[id := Inode(ino.count - 1, ino.slots[14 := 0])];
      ClearedBy(old(bits), bits, Gone(s, owner, id, n), block, single, dbl, triple);
      TripleFirstGone(id, old(bits), old(inodes), n);
      CommitRemoval(old(disk), old(bits), old(inodes), id);
    }

    lemma TripleFirstGone(id: nat, bits0: seq<bool>, inodes0: map<nat, Inode>, n: nat)
      requires Inv(s, total, first, disk, bits0, inodes0, owner) && id in inodes0 && id in inodes && inodes0[id].count == n + 1 && SLOTS < n
      requires Path(s, n) == Pos(3, 0, 0, 0) && inodes == inodes0[id := Inode(n, inodes0[id].slots[14 := 0])]
      requires Cleared(bits0, bits, Gone(s, owner, id, n))
      ensures Shrinks(s, disk, inodes0, id, disk, inodes[id])
    {
      assert total !in owner;
      DeadSlot(s, inodes0[id], inodes[id], n, P3, 14);
      WipeShrinks(s, total, first, disk, bits0, inodes0, owner, id, disk, inodes[id], total, P1);
    }

    /** The four blocks that the last block of a file takes with it when it is the first of the triple range. */
    lemma TripleFirstAt(id: nat)
      requires Valid() && id in inodes && 0 < inodes[id].count && SLOTS < inodes[id].count - 1
      requires Path(s, inodes[id].count - 1) == Pos(3, 0, 0, 0) && 4 <= s
      ensures |inodes[id].slots| == SLOTS && |bits| == total == |disk|
      ensures inodes[id].slots[14] < total && |disk[inodes[id].slots[14]]| == s
      ensures var dbl := disk[inodes[id].slots[14]][0]; dbl < total && |disk[dbl]| == s
      ensures var single := disk[disk[inodes[id].slots[14]][0]][0]; single < total && |disk[single]| == s
      ensures var triple := inodes[id].slots[14];
              var dbl := disk[triple][0];
              var single := disk[dbl][0];
              disk[single][0] < total && Listed(Gone(s, owner, id, inodes[id].count - 1), disk[single][0], single, dbl, triple)
    {
      hide Rooted, Exact, Marked, Path, Capacity, Live;
      var ino := inodes[id];
      var n := ino.count - 1;
      GoneTriple4(s, total, first, disk, bits, inodes, owner, id, n, Path(s, n));
      DataLive(s, ino.count, n);
      ParentLive(s, ino.count, N3(0, 0, 0));
      LiveAddr(s, total, first, disk, bits, inodes, owner, id, N3(0, 0, 0));
      LiveAddr(s, total, first, disk, bits, inodes, owner, id, P3S(0, 0));
      ParentLive(s, ino.count, P3S(0, 0));
      LiveAddr(s, total, first, disk, bits, inodes, owner, id, P3D(0));
      ParentLive(s, ino.count, P3D(0));
      LiveAddr(s, total, first, disk, bits, inodes, owner, id, P3);
      assert Addr(disk, ino, P3) == ino.slots[14];
      assert Addr(disk, ino, P3D(0)) == disk[ino.slots[14]][0];
      assert Addr(disk, ino, P3S(0, 0)) == disk[disk[ino.slots[14]][0]][0];
      assert Addr(disk, ino, N3(0, 0, 0)) == disk[disk[disk[ino.slots[14]][0]][0]][0];
    }
  
    // -------------------------------------------------------------------------
    // The operations
    // -------------------------------------------------------------------------

    /** Every file but `id` is what it was. */
    ghost predicate OthersKept(disk0: Disk, inodes0: map<nat, Inode>, id: nat)
      requires 0 < s
      reads this
    {
      && inodes.Keys == inodes0.Keys
      && forall j :: j in inodes0 && j in inodes && j != id ==> inodes[j] == inodes0[j] && File(j) == Blocks(s, disk0, inodes0[j])
    }

    lemma Basics(id: nat)
      requires Valid() && id in inodes
      ensures 4 <= s && |disk| == total && |inodes[id].slots| == SLOTS && forall j :: j in inodes ==> inodes[j].count <= Capacity(s)
    {
    }

    /** `allocate_block_for_file_inode`.  Fails for a full file, and otherwise exactly when fewer blocks are free than
        it needs; then every free block is leaked and every file is as before. */
    method Append(id: nat) returns (err: Err, b: nat)
      requires Valid() && id in inodes
      modifies this`disk, this`bits, bm`blocks, this`inodes, this`owner
      ensures Valid() && id in inodes && OthersKept(old(disk), old(inodes), id)
      ensures err == InodeFull <==> old(inodes)[id].count == Capacity(s)
      ensures err == NoFreeBlocks <==> old(inodes)[id].count < Capacity(s) && FreeCount(old(bits)) < Needed(s, old(inodes)[id].count)
      ensures err == Success || err == InodeFull || err == NoFreeBlocks
      ensures err == Success ==> File(id) == old(File(id)) + [b] && FreeCount(bits) == FreeCount(old(bits)) - Needed(s, old(inodes)[id].count)
      ensures err == Success ==> Grew(old(owner), owner, id, old(inodes)[id].count)
      ensures WritesOnly(old(disk), disk, old(owner), id)
      ensures err != Success ==> disk == old(disk) && inodes == old(inodes)
      ensures err == InodeFull ==> bits == old(bits) && owner == old(owner)
      ensures err == NoFreeBlocks ==> FreeCount(bits) == 0 && OnlyLeaks(old(owner), owner)
    {
      hide WritesOnly, Inv, Backed, Needed, Capacity, OnlyLeaks, Grew;
      Basics(id);
      WroteFew(disk, disk, owner, id, {});
      LeaksOn(owner, owner, owner, 0);
      var n := inodes[id].count;
      NeededInline(s, n);
      if n == Capacity(s) {
        return InodeFull, 0;
      }
      var ok;
      ok, b := FindFreeBlock();
      if !ok {
        return NoFreeBlocks, b;
      }
      ghost var owner1 := owner;
      ok := AppendAt(id, b);
      if !ok {
        LeaksOn(old(owner), owner1, owner, b);
        return NoFreeBlocks, b;
      }
      AppendView(old(disk), old(inodes), old(owner), owner1, id, b);
      WritesFewer(old(disk), disk, owner1, old(owner), id);
      err := Success;
    }

    /** A block is in hand: it is hung where the file ends. */
    method AppendAt(id: nat, b: nat) returns (ok: bool)
      requires Valid() && id in inodes && inodes[id].count < Capacity(s) && b in owner && owner[b] == Leak
      modifies this`disk, this`bits, bm`blocks, this`inodes, this`owner
      ensures Valid()
      ensures ok <==> Needed(s, old(inodes)[id].count) <= FreeCount(old(bits)) + 1
      ensures ok ==> FreeCount(bits) == FreeCount(old(bits)) + 1 - Needed(s, old(inodes)[id].count)
      ensures ok ==> Appended(old(disk), old(inodes), old(owner), id, b)
      ensures !ok ==> Starved(old(disk), old(inodes), old(owner))
      ensures WritesOnly(old(disk), disk, old(owner), id)
    {
      hide WritesOnly, Inv, Backed, Needed, Starved, Appended;
      var n := inodes[id].count;
      Basics(id);
      SmallPaths(s, n);
      NeededInline(s, n);
      WroteFew(disk, disk, owner, id, {});
      if n < SLOTS {
        AppendInline(id, b);
        ok := true;
      } else if n < DIRECT + s {
        ok := AppendSingle(id, b);
      } else if n < DIRECT + s + Sq(s) {
        ok := AppendDouble(id, b);
      } else {
        ok := AppendTriple(id, b);
      }
    }

    /** The owners of a file one block longer: the old ones, and its new nodes. */
    ghost predicate Grew(owner0: map<nat, Owner>, owner1: map<nat, Owner>, id: nat, n: nat)
      requires 0 < s
    {
      && (forall c :: c in owner0 ==> c in owner1 && owner1[c] == owner0[c])
      && (forall c :: c in owner1 && c !in owner0 ==> owner1[c].Tree? && owner1[c].id == id && IsNew(s, n, owner1[c].node))
    }

    lemma AppendView(disk0: Disk, inodes0: map<nat, Inode>, owner0: map<nat, Owner>, owner1: map<nat, Owner>, id: nat, b: nat)
      requires 4 <= s && id in inodes0 && inodes0[id].count < Capacity(s) && b !in owner0 && owner1 == owner0[b := Leak]
      requires forall j :: j in inodes0 ==> inodes0[j].count <= Capacity(s)
      requires Appended(disk0, inodes0, owner1, id, b)
      ensures OthersKept(disk0, inodes0, id)
      ensures File(id) == Blocks(s, disk0, inodes0[id]) + [b]
      ensures Grew(owner0, owner, id, inodes0[id].count)
    {
      hide IsNew, Live, Addr, DataNode, Capacity;
      forall x | Live(s, inodes0[id].count, x)
        ensures Addr(disk, inodes[id], x) == Addr(disk0, inodes0[id], x)
      {
        assert LiveIn(s, inodes0, id, x);
      }
      GrowBlocks(s, disk0, inodes0[id], disk, inodes[id]);
      forall j | j in inodes0 && j != id
        ensures File(j) == Blocks(s, disk0, inodes0[j])
      {
        SameBlocks(s, disk0, disk, inodes0, j);
      }
    }

    /** `remove_last_block_inode`: fails exactly for an empty file. */
    method RemoveLast(id: nat) returns (err: Err)
      requires Valid() && id in inodes
      modifies this`disk, this`bits, bm`blocks, this`inodes, this`owner
      ensures Valid() && id in inodes && OthersKept(old(disk), old(inodes), id)
      ensures err == IllegalBlockNo <==> old(inodes)[id].count == 0
      ensures err == IllegalBlockNo || err == Success
      ensures err == IllegalBlockNo ==> disk == old(disk) && bits == old(bits) && inodes == old(inodes) && owner == old(owner)
      ensures err == Success ==> 0 < |old(File(id))| && File(id) == old(File(id))[..|old(File(id))| - 1]
      ensures err == Success ==> owner == old(owner) - Gone(s, old(owner), id, old(inodes)[id].count - 1) && Wiped(s, disk, inodes[id])
      ensures WritesOnly(old(disk), disk, old(owner), id)
    {
      var n := inodes[id].count;
      if n == 0 {
        return IllegalBlockNo;
      }
      hide Inv, Backed, WritesOnly;
      if n <= SLOTS {
        RemoveInline(id);
      } else if n == 16 {
        RemoveDemote(id);
      } else if n - 1 < DIRECT + s {
        RemoveSingle(id);
      } else if n - 1 < DIRECT + s + Sq(s) {
        RemoveDouble(id);
      } else {
        RemoveTriple(id);
      }
      RemoveView(old(disk), old(inodes), old(owner), id);
      err := Success;
    }

    lemma RemoveView(disk0: Disk, inodes0: map<nat, Inode>, owner0: map<nat, Owner>, id: nat)
      requires 4 <= s && id in inodes0 && 0 < inodes0[id].count
      requires forall j :: j in inodes0 ==> inodes0[j].count <= Capacity(s)
      requires Removed(disk0, inodes0, owner0, id)
      ensures OthersKept(disk0, inodes0, id)
      ensures File(id) == Blocks(s, disk0, inodes0[id])[..inodes0[id].count - 1]
    {
      hide IsNew, Live, Addr, DataNode, Capacity;
      var n := inodes[id].count;
      forall i | 0 <= i < n
        ensures File(id)[i] == Blocks(s, disk0, inodes0[id])[i]
      {
        DataLive(s, n, i);
      }
      forall j | j in inodes0 && j != id
        ensures File(j) == Blocks(s, disk0, inodes0[j])
      {
        SameBlocks(s, disk0, disk, inodes0 - {id}, j);
      }
    }
  
    // -------------------------------------------------------------------------
    // Clear
    // -------------------------------------------------------------------------

    /** Mid-clear: only bits changed since `bits0`, by the blocks in `freed`. */
    ghost predicate Clearing(bits0: seq<bool>, id: nat, freed: set<nat>)
      reads this, bm
    {
      && Inv(s, total, first, disk, bits0, inodes, owner) && Cleared(bits0, bits, freed) && Backed()
      && id in inodes && SLOTS < inodes[id].count
    }

    method FreeMore(b: nat, ghost bits0: seq<bool>, id: nat, ghost freed: set<nat>)
      requires Clearing(bits0, id, freed) && b < total
      modifies this`bits, bm`blocks
      ensures Clearing(bits0, id, freed + {b})
    {
      hide Rooted, Exact, Backed;
      FreeBlock(b);
    }

    /** Free the data block at position `removed`, the last of its new nodes. */
    method FreeNext(b: nat, removed: nat, id: nat, ghost bits0: seq<bool>, skip: nat, ghost freed: set<nat>, ghost extra: set<Node>)
      requires Clearing(bits0, id, freed) && removed < inodes[id].count && 1 <= Path(s, removed).level <= 3
      requires b == Addr(disk, inodes[id], DataNode(s, removed))
      requires FreedTo(s, owner, id, skip, freed, removed, extra)
      requires Completes(s, removed, extra)
      modifies this`bits, bm`blocks
      ensures Clearing(bits0, id, freed + {b}) && FreedTo(s, owner, id, skip, freed + {b}, removed + 1, {})
      ensures Path(s, removed + 1) == Succ(s, Path(s, removed))
    {
      hide Path, FreedTo, IsNewP, Live, Addr, Capacity, Rooted, Exact, Marked, DataNode, Completes, Backed;
      DataUnder(s, disk, inodes[id], removed);
      LiveAddr(s, total, first, disk, bits0, inodes, owner, id, DataNode(s, removed));
      FreeMore(b, bits0, id, freed);
      FreeData(s, disk, inodes, owner, id, skip, freed, removed, extra, b);
      PathSucc(s, removed);
    }

    /** The entry of a pointer block for a later position under it, and that nothing else is new there. */
    lemma NextEntry(single: nat, removed: nat, removed': nat, bits0: seq<bool>, id: nat, freed: set<nat>)
      requires Clearing(bits0, id, freed) && removed < inodes[id].count && removed' < inodes[id].count
      requires 1 <= Path(s, removed).level <= 3 && Path(s, removed') == Path(s, removed).(c := Path(s, removed').c)
      requires single == Addr(disk, inodes[id], Parent(DataNode(s, removed)))
      ensures Path(s, removed').c < s && Word(disk, single, Path(s, removed').c) == Addr(disk, inodes[id], DataNode(s, removed'))
      ensures 0 < Path(s, removed').c ==> Completes(s, removed', {})
    {
      hide Exact, Rooted, Marked, Cleared, Capacity, Path, Live;
      DataUnder(s, disk, inodes[id], removed');
      SameParent(s, removed, removed');
      NewAlone(s, removed');
    }

    /** The loop of `free_from_single_ptr` over the entries of the pointer block. */
    method FreeEntries(single: nat, removed: nat, id: nat, ghost bits0: seq<bool>, skip: nat, ghost freed: set<nat>, ghost extra: set<Node>)
      returns (done: bool, removed': nat, ghost freed': set<nat>)
      requires Clearing(bits0, id, freed) && removed < inodes[id].count && single < |disk| && |disk[single]| == s
      requires Path(s, removed).c == 0 && 1 <= Path(s, removed).level <= 3
      requires single == Addr(disk, inodes[id], Parent(DataNode(s, removed)))
      requires FreedTo(s, owner, id, skip, freed, removed, extra)
      requires Completes(s, removed, extra)
      modifies this`bits, bm`blocks
      ensures Clearing(bits0, id, freed') && FreedTo(s, owner, id, skip, freed', removed', {})
      ensures removed' <= inodes[id].count && (done <==> removed' == inodes[id].count)
      ensures !done ==> Path(s, removed') == Succ(s, Path(s, removed).(c := s - 1))
    {
      hide Rooted, Exact, Marked, Cleared, Backed, FreedTo, Completes, Addr, DataNode, Parent;
      var ino, singleData := inodes[id], disk[single];
      ghost var p := Path(s, removed);
      freed', removed' := freed, removed;
      for i := 0 to s
        invariant Clearing(bits0, id, freed') && removed' == removed + i < ino.count
        invariant Path(s, removed') == if i < s then p.(c := i) else Succ(s, p.(c := s - 1))
        invariant 0 < i ==> FreedTo(s, owner, id, skip, freed', removed', {})
        invariant i == 0 ==> FreedTo(s, owner, id, skip, freed', removed', extra)
      {
        NextEntry(single, removed, removed', bits0, id, freed');
        FreeNext(singleData[i], removed', id, bits0, skip, freed', if i == 0 then extra else {});
        freed' := freed' + {singleData[i]};
        removed' := removed' + 1;
        if removed' == ino.count {
          return true, removed', freed';
        }
      }
      done := false;
    }

    /** `free_from_single_ptr`: free a pointer block and the data blocks behind it, until `i_blocks` are gone. */
    method FreeFromSingle(single: nat, removed: nat, id: nat, ghost bits0: seq<bool>, skip: nat, ghost freed: set<nat>, ghost extra: set<Node>)
      returns (done: bool, removed': nat, ghost freed': set<nat>)
      requires Clearing(bits0, id, freed) && removed < inodes[id].count
      requires Path(s, removed).c == 0 && 1 <= Path(s, removed).level <= 3
      requires single == Addr(disk, inodes[id], Parent(DataNode(s, removed)))
      requires FreedTo(s, owner, id, skip, freed + {single}, removed, extra)
      requires Completes(s, removed, extra)
      modifies this`bits, bm`blocks
      ensures Clearing(bits0, id, freed') && FreedTo(s, owner, id, skip, freed', removed', {})
      ensures removed' <= inodes[id].count && (done <==> removed' == inodes[id].count)
      ensures !done ==> Path(s, removed') == Succ(s, Path(s, removed).(c := s - 1))
    {
      DataUnder(s, disk, inodes[id], removed);
      LiveAddr(s, total, first, disk, bits0, inodes, owner, id, Parent(DataNode(s, removed)));
      assert |disk[single]| == s;
      hide Inv, Path, FreedTo, IsNewP, Live, Addr, Capacity, Cleared, Completes, DataNode, Parent, Index, HasParent, Succ, Backed;
      FreeMore(single, bits0, id, freed);
      done, removed', freed' := FreeEntries(single, removed, id, bits0, skip, freed + {single}, extra);
    }

    /** `free_from_double_ptr`. */
    method FreeFromDouble(dbl: nat, removed: nat, id: nat, ghost bits0: seq<bool>, skip: nat, ghost freed: set<nat>, ghost extra: set<Node>)
      returns (done: bool, removed': nat, ghost freed': set<nat>)
      requires Clearing(bits0, id, freed) && removed < inodes[id].count
      requires Path(s, removed).b == 0 && Path(s, removed).c == 0 && 2 <= Path(s, removed).level <= 3
      requires dbl == Addr(disk, inodes[id], Parent(Parent(DataNode(s, removed))))
      requires FreedTo(s, owner, id, skip, freed + {dbl}, removed, extra)
      requires Completes2(s, removed, extra)
      modifies this`bits, bm`blocks
      ensures Clearing(bits0, id, freed') && FreedTo(s, owner, id, skip, freed', removed', {})
      ensures removed' <= inodes[id].count && (done <==> removed' == inodes[id].count)
      ensures !done ==> Path(s, removed') == Succ(s, Path(s, removed).(b := s - 1, c := s - 1))
    {
      var ino := inodes[id];
      ghost var p := Path(s, removed);
      SingleUnder(s, disk, ino, removed);
      PathInRange(s, removed);
      LiveAddr(s, total, first, disk, bits0, inodes, owner, id, Parent(Parent(DataNode(s, removed))));
      hide Inv, Path, FreedTo, IsNewP, Live, Addr, Capacity, Cleared, Completes, DataNode, Parent, Index, HasParent, Backed;
      FreeMore(dbl, bits0, id, freed);
      freed' := freed + {dbl};
      var doubleData := disk[dbl];
      removed' := removed;
      for j := 0 to s
        invariant Clearing(bits0, id, freed') && removed' < ino.count
        invariant Path(s, removed') == if j < s then p.(b := j) else Succ(s, p.(b := s - 1, c := s - 1))
        invariant 0 < j ==> FreedTo(s, owner, id, skip, freed', removed', {})
        invariant j == 0 ==> removed' == removed && FreedTo(s, owner, id, skip, freed', removed', extra)
      {
        SingleUnder(s, disk, ino, removed');
        SameParent(s, removed, removed');
        ghost var extra' := if j == 0 then extra else {};
        EnterSingle(doubleData[j], removed', id, bits0, skip, freed', extra');
        NewAlone(s, removed');
        done, removed', freed' := FreeFromSingle(doubleData[j], removed', id, bits0, skip, freed', extra' + {Parent(DataNode(s, removed'))});
        if done {
          return;
        }
      }
      done := false;
    }

    /** `free_from_triple_ptr`. */
    method FreeFromTriple(triple: nat, removed: nat, id: nat, ghost bits0: seq<bool>, skip: nat, ghost freed: set<nat>)
      returns (done: bool, removed': nat, ghost freed': set<nat>)
      requires Clearing(bits0, id, freed) && removed < inodes[id].count
      requires Path(s, removed) == Pos(3, 0, 0, 0) && triple == Addr(disk, inodes[id], P3)
      requires FreedTo(s, owner, id, skip, freed + {triple}, removed, {P3})
      modifies this`bits, bm`blocks
      ensures Clearing(bits0, id, freed') && FreedTo(s, owner, id, skip, freed', removed', {})
      ensures removed' <= inodes[id].count && (done <==> removed' == inodes[id].count)
      ensures done
    {
      var ino := inodes[id];
      DoubleUnder(s, disk, ino, removed);
      LiveAddr(s, total, first, disk, bits0, inodes, owner, id, P3);
      FreeMore(triple, bits0, id, freed);
      freed' := freed + {triple};
      var tripleData := disk[triple];
      removed' := removed;
      for a := 0 to s
        invariant Clearing(bits0, id, freed') && removed' < ino.count
        invariant Path(s, removed') == Pos(3, a, 0, 0)
        invariant 0 < a ==> FreedTo(s, owner, id, skip, freed', removed', {})
        invariant a == 0 ==> removed' == removed && FreedTo(s, owner, id, skip, freed', removed', {P3})
      {
        DoubleUnder(s, disk, ino, removed');
        ghost var extra' := if a == 0 then {P3} else {};
        EnterDouble(tripleData[a], removed', id, bits0, skip, freed', extra');
        NewAlone(s, removed');
        done, removed', freed' := FreeFromDouble(tripleData[a], removed', id, bits0, skip, freed', extra' + {Parent(Parent(DataNode(s, removed')))});
        if done {
          return;
        }
      }
      PastEnd(removed', bits0, id, freed');
      done := false;
    }

    /** A file has no block past the triple range. */
    lemma PastEnd(removed: nat, bits0: seq<bool>, id: nat, freed: set<nat>)
      requires Clearing(bits0, id, freed) && removed < inodes[id].count
      ensures Path(s, removed) != Pos(3, s, 0, 0)
    {
      hide Rooted, Exact, Marked, Cleared, Path;
      LastPos(s, removed);
    }

    lemma EnterDouble(dbl: nat, removed: nat, id: nat, bits0: seq<bool>, skip: nat, freed: set<nat>, extra: set<Node>)
      requires Clearing(bits0, id, freed) && removed < inodes[id].count && Path(s, removed).level == 3
      requires Live(s, inodes[id].count, Parent(Parent(DataNode(s, removed))))
      requires dbl == Addr(disk, inodes[id], Parent(Parent(DataNode(s, removed))))
      requires FreedTo(s, owner, id, skip, freed, removed, extra)
      ensures FreedTo(s, owner, id, skip, freed + {dbl}, removed, extra + {Parent(Parent(DataNode(s, removed)))})
    {
      hide Path, FreedTo, Live, Addr, Capacity, Rooted, Exact;
      LiveAddr(s, total, first, disk, bits0, inodes, owner, id, Parent(Parent(DataNode(s, removed))));
      FreeNode(s, disk, inodes, owner, id, skip, freed, removed, extra, Parent(Parent(DataNode(s, removed))), dbl);
    }

    lemma EnterSingle(single: nat, removed: nat, id: nat, bits0: seq<bool>, skip: nat, freed: set<nat>, extra: set<Node>)
      requires Clearing(bits0, id, freed) && removed < inodes[id].count && 2 <= Path(s, removed).level <= 3
      requires Live(s, inodes[id].count, Parent(DataNode(s, removed)))
      requires single == Addr(disk, inodes[id], Parent(DataNode(s, removed)))
      requires FreedTo(s, owner, id, skip, freed, removed, extra)
      ensures FreedTo(s, owner, id, skip, freed + {single}, removed, extra + {Parent(DataNode(s, removed))})
    {
      hide Path, FreedTo, Live, Addr, Capacity, Rooted, Exact;
      LiveAddr(s, total, first, disk, bits0, inodes, owner, id, Parent(DataNode(s, removed)));
      FreeNode(s, disk, inodes, owner, id, skip, freed, removed, extra, Parent(DataNode(s, removed)), single);
    }

    /** `clamp_kept_blocks`: drop kept slots that hold no block. */
    method ClampKept(ino: Inode, keep: nat) returns (kept: nat)
      requires keep <= |ino.slots|
      ensures kept <= keep && kept <= ino.count && (kept == 0 || ino.slots[kept - 1] != 0)
      ensures forall i :: kept <= i < keep && i < ino.count ==> ino.slots[i] == 0
      ensures kept == (if keep > ino.count then ino.count else keep) || (kept < keep && ino.slots[kept] == 0 && kept < ino.count)
    {
      kept := if keep > ino.count then ino.count else keep;
      while kept > 0 && ino.slots[kept - 1] == 0
        invariant kept <= keep && kept <= ino.count
        invariant forall i :: kept <= i < keep && i < ino.count ==> ino.slots[i] == 0
        invariant kept == (if keep > ino.count then ino.count else keep) || (kept < keep && ino.slots[kept] == 0 && kept < ino.count)
      {
        kept := kept - 1;
      }
    }

    /** The loop over the slots of the inode: exactly the blocks in slots `skip` to `direct` are freed. */
    method FreeDirect(id: nat, skip: nat, direct: nat) returns (ghost freed: set<nat>)
      requires Valid() && id in inodes && skip <= direct <= inodes[id].count
      requires direct <= DIRECT || inodes[id].count <= SLOTS
      modifies this`bits, bm`blocks
      ensures Inv(s, total, first, disk, old(bits), inodes, owner) && Cleared(old(bits), bits, freed) && Backed()
      ensures DirectFreed(owner, id, skip, freed, direct)
    {
      freed := {};
      for i := skip to direct
        invariant Inv(s, total, first, disk, old(bits), inodes, owner) && Cleared(old(bits), bits, freed) && Backed()
        invariant DirectFreed(owner, id, skip, freed, i)
      {
        hide DirectFreed, Rooted, Exact;
        FreeSlot(old(bits), id, skip, freed, i);
        FreeBlock(inodes[id].slots[i]);
        freed := freed + {inodes[id].slots[i]};
      }
    }

    lemma FreeSlot(bits0: seq<bool>, id: nat, skip: nat, freed: set<nat>, cur: nat)
      requires Inv(s, total, first, disk, bits0, inodes, owner) && DirectFreed(owner, id, skip, freed, cur)
      requires id in inodes && skip <= cur < inodes[id].count && (cur < DIRECT || inodes[id].count <= SLOTS)
      ensures cur < |inodes[id].slots| && inodes[id].slots[cur] < total
      ensures DirectFreed(owner, id, skip, freed + {inodes[id].slots[cur]}, cur + 1)
    {
      hide DirectFreed, Rooted, Exact, DataNode, Capacity;
      DirectNext(s, disk, inodes, owner, id, skip, freed, cur);
    }

    /** The pointer stages of `clear_blocks_of_inode` for a file of more than 15 blocks. */
    method FreePointers(id: nat, skip: nat, ghost bits0: seq<bool>, ghost freed: set<nat>) returns (ghost freed': set<nat>)
      requires Clearing(bits0, id, freed) && skip <= DIRECT && DirectFreed(owner, id, skip, freed, DIRECT)
      modifies this`bits, bm`blocks
      ensures Clearing(bits0, id, freed')
      ensures forall b :: b in freed' <==> b in owner && owner[b].Tree? && owner[b].id == id && Freeable(skip, owner[b].node)
    {
      var done, removed;
      FirstSingle(bits0, id, skip, freed);
      hide Inv, Cleared, Path, FreedTo, DirectFreed, Completes, DataNode, Parent, Freeable, Addr, Backed;
      done, removed, freed' := FreeFromSingle(inodes[id].slots[12], DIRECT, id, bits0, skip, freed, {});
      if !done {
        FirstDouble(bits0, id, skip, freed', removed);
        done, removed, freed' := FreeFromDouble(inodes[id].slots[13], removed, id, bits0, skip, freed', {P2});
        if !done {
          FirstTriple(bits0, id, skip, freed', removed);
          done, removed, freed' := FreeFromTriple(inodes[id].slots[14], removed, id, bits0, skip, freed');
        }
      }
      hide Clearing, Backed;
      AllFreed(bits0, id, skip, freed');
    }

    lemma AllFreed(bits0: seq<bool>, id: nat, skip: nat, freed: set<nat>)
      requires Clearing(bits0, id, freed) && FreedTo(s, owner, id, skip, freed, inodes[id].count, {})
      ensures forall b :: b in freed <==> b in owner && owner[b].Tree? && owner[b].id == id && Freeable(skip, owner[b].node)
    {
      hide Rooted, Exact, FreedTo, Freeable;
      PrefixIsAll(s, disk, inodes, owner, id, skip, freed);
    }

    lemma FirstSingle(bits0: seq<bool>, id: nat, skip: nat, freed: set<nat>)
      requires Clearing(bits0, id, freed) && skip <= DIRECT && DirectFreed(owner, id, skip, freed, DIRECT)
      ensures DIRECT < inodes[id].count && |inodes[id].slots| == SLOTS
      ensures Path(s, DIRECT) == Pos(1, 0, 0, 0) && inodes[id].slots[12] == Addr(disk, inodes[id], Parent(DataNode(s, DIRECT)))
      ensures FreedTo(s, owner, id, skip, freed + {inodes[id].slots[12]}, DIRECT, {}) && Completes(s, DIRECT, {})
    {
      hide Rooted, Exact, FreedTo, DirectFreed, Freeable;
      SmallPaths(s, DIRECT);
      DirectIsPrefix(s, disk, inodes, owner, id, skip, freed);
    }

    lemma FirstDouble(bits0: seq<bool>, id: nat, skip: nat, freed: set<nat>, removed: nat)
      requires Clearing(bits0, id, freed) && removed < inodes[id].count && Path(s, removed) == Pos(2, 0, 0, 0)
      requires FreedTo(s, owner, id, skip, freed, removed, {})
      ensures |inodes[id].slots| == SLOTS
      ensures inodes[id].slots[13] == Addr(disk, inodes[id], Parent(Parent(DataNode(s, removed))))
      ensures FreedTo(s, owner, id, skip, freed + {inodes[id].slots[13]}, removed, {P2}) && Completes2(s, removed, {P2})
    {
      hide Path, Live, Capacity, FreedTo, Rooted, Exact;
      SingleUnder(s, disk, inodes[id], removed);
      assert Parent(Parent(DataNode(s, removed))) == P2;
      LiveAddr(s, total, first, disk, bits0, inodes, owner, id, P2);
      FreeNode(s, disk, inodes, owner, id, skip, freed, removed, {}, P2, inodes[id].slots[13]);
      assert {} + {P2} == {P2};
    }

    lemma FirstTriple(bits0: seq<bool>, id: nat, skip: nat, freed: set<nat>, removed: nat)
      requires Clearing(bits0, id, freed) && removed < inodes[id].count && Path(s, removed) == Pos(3, 0, 0, 0)
      requires FreedTo(s, owner, id, skip, freed, removed, {})
      ensures |inodes[id].slots| == SLOTS && inodes[id].slots[14] == Addr(disk, inodes[id], P3)
      ensures FreedTo(s, owner, id, skip, freed + {inodes[id].slots[14]}, removed, {P3})
    {
      hide Path, Live, Capacity, FreedTo, Rooted, Exact;
      DoubleUnder(s, disk, inodes[id], removed);
      LiveAddr(s, total, first, disk, bits0, inodes, owner, id, P3);
      FreeNode(s, disk, inodes, owner, id, skip, freed, removed, {}, P3, inodes[id].slots[14]);
      assert {} + {P3} == {P3};
    }

    /** `clear_blocks_of_inode`, for a `skip_first` of direct blocks: a file keeps its first blocks, as many as it has of
        them.  The bitmap loses exactly the other blocks of the file, data and pointers alike. */
    method Clear(id: nat, skip: nat)
      requires Valid() && id in inodes && skip <= DIRECT
      modifies this`bits, bm`blocks, this`inodes, this`owner
      ensures Valid() && OthersKept(disk, old(inodes), id) && id in inodes
      ensures File(id) == if old(inodes)[id].count < skip then old(File(id)) else old(File(id))[..skip]
      ensures forall b :: b in owner <==> b in old(owner) && !(old(owner)[b].Tree? && old(owner)[b].id == id && Freeable(skip, old(owner)[b].node))
      ensures forall b :: b in owner ==> owner[b] == old(owner)[b]
    {
      hide Rooted, Exact, Marked, DirectFreed, Backed;
      var ino := inodes[id];
      ghost var gone: set<nat> := {};
      SlotKept(id);
      var kept := ClampKept(ino, skip);
      assert kept == (if skip < ino.count then skip else ino.count);
      if skip < ino.count {
        if ino.count < 16 {
          gone := FreeDirect(id, skip, ino.count);
          DirectIsAll(s, disk, inodes, owner, id, skip, gone);
        } else {
          gone := FreeDirect(id, skip, DIRECT);
          gone := FreePointers(id, skip, old(bits), gone);
        }
      } else {
        SmallTree(id, skip);
      }
      inodes := inodes[id := ino.(count := kept)];
      owner := owner - gone;
      ClearInv(s, total, first, disk, old(bits), old(inodes), old(owner), id, kept, inodes[id], gone, bits);
    }

    lemma SlotKept(id: nat)
      requires Valid() && id in inodes
      ensures |inodes[id].slots| == SLOTS && forall i :: 0 <= i < DIRECT && i < inodes[id].count ==> inodes[id].slots[i] != 0
    {
      forall i: nat | i < DIRECT && i < inodes[id].count
        ensures inodes[id].slots[i] != 0
      {
        SmallPaths(s, inodes[id].count);
        SmallPaths(s, i);
        LiveAddr(s, total, first, disk, bits, inodes, owner, id, N0(i));
      }
    }

    lemma SmallTree(id: nat, skip: nat)
      requires Valid() && id in inodes && skip <= DIRECT && inodes[id].count <= skip
      ensures forall b :: b in owner && owner[b].Tree? && owner[b].id == id ==>
                !Freeable(skip, owner[b].node) && !Freeable(inodes[id].count, owner[b].node)
    {
      SmallPaths(s, inodes[id].count);
      forall b | b in owner && owner[b].Tree? && owner[b].id == id
        ensures owner[b].node.N0? && owner[b].node.i < inodes[id].count
      {
        assert LiveIn(s, inodes, id, owner[b].node);
      }
    }
  }

  lemma NeededInline(s: nat, n: nat)
    requires 4 <= s
    ensures 1 <= Needed(s, n) && (n < SLOTS ==> Needed(s, n) == 1)
  {
    hide Path;
    SmallPaths(s, n);
  }
}
