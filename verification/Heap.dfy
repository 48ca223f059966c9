/** The kernel's segregated-fit allocator (`kernel/memory/kmalloc.c`).

Pointers are payload addresses in words, one past a block's header; a request is in bytes.
The lock is not modelled: each public method is one critical section. */
module Heap {
  import opened HeapLayout

  const PAGE_WORDS: nat := 512

  ghost predicate OnlyLoose(blk: Blocks, p: nat) {
    forall q :: q in blk && blk[q].status == Loose ==> q == p
  }

  /** The first list searched for a request of `size` bytes. */
  ghost function RequestClass(size: nat): (k: nat)
    ensures k < CLASSES
  {
    if size <= 16 then 0
    else if size <= 48 then 1
    else if size <= 80 then 2
    else if size <= 176 then 3
    else if size <= 496 then 4
    else 5
  }

  ghost predicate Fits(blk: Blocks, p: nat, size: nat) {
    p in blk && 2 * ((size + 31) / 16) <= blk[p].words
  }

  /** Exactly when the search for a request of `size` bytes finds a block: some later list is not
      empty, or the request's own list holds a fit.  In classes 1 and 2 only the head of the list is looked at. */
  ghost predicate Findable(blk: Blocks, lists: seq<seq<nat>>, size: nat)
    requires |lists| == CLASSES
  {
    (exists k :: RequestClass(size) < k < CLASSES && lists[k] != []) || FoundOwn(blk, lists, size)
  }

  /** The request's own list serves it. */
  ghost predicate FoundOwn(blk: Blocks, lists: seq<seq<nat>>, size: nat)
    requires |lists| == CLASSES
  {
    var c := RequestClass(size);
    if c == 1 || c == 2 then lists[c] != [] && Fits(blk, lists[c][0], size) else exists p :: p in lists[c] && Fits(blk, p, size)
  }

  /** `p` is on the list, and no block before it fits. */
  ghost predicate FirstFit(blk: Blocks, list: seq<nat>, p: nat, size: nat) {
    exists i :: 0 <= i < |list| && list[i] == p && forall j :: 0 <= j < i ==> !Fits(blk, list[j], size)
  }

  /** `p` heads the first list from `k` on that is not empty. */
  ghost predicate HeadFrom(lists: seq<seq<nat>>, k: nat, p: nat)
    requires |lists| == CLASSES
  {
    exists j :: k <= j < CLASSES && lists[j] != [] && lists[j][0] == p && forall i :: k <= i < j ==> lists[i] == []
  }

  /** The block that a request gets: the first fit on its own list, or else the head of the next list that is not empty. */
  ghost predicate Chosen(blk: Blocks, lists: seq<seq<nat>>, size: nat, p: nat)
    requires |lists| == CLASSES
  {
    if FoundOwn(blk, lists, size) then FirstFit(blk, lists[RequestClass(size)], p, size) && Fits(blk, p, size)
    else HeadFrom(lists, RequestClass(size) + 1, p)
  }

  /** What a search that goes on with the smallest request of class `k` comes upon. */
  lemma ChosenFrom(m: seq<nat>, lo: nat, blk: Blocks, lists: seq<seq<nat>>, base: nat, epi: nat, size: nat, p: nat)
    requires Listed(m, lo, blk, lists) && Sized(blk, base, epi)
    requires size in {17, 49, 81, 177, 497} && Chosen(blk, lists, size, p)
    ensures HeadFrom(lists, RequestClass(size), p)
  {
    hide Linked;
    var c := RequestClass(size);
    if lists[c] != [] {
      assert lists[c][0] in lists[c] && Fits(blk, lists[c][0], size);
    }
  }

  /** The own list is searched in vain and the search goes on. */
  lemma ChosenNext(blk: Blocks, lists: seq<seq<nat>>, size: nat, p: nat)
    requires |lists| == CLASSES && !FoundOwn(blk, lists, size) && HeadFrom(lists, RequestClass(size) + 1, p)
    ensures Chosen(blk, lists, size, p)
  {
  }

  /** The lists from the own one up to `k` are empty, so the head of `k` is taken. */
  lemma ChosenHead(blk: Blocks, lists: seq<seq<nat>>, size: nat, k: nat)
    requires |lists| == CLASSES && RequestClass(size) < k < CLASSES && lists[k] != []
    requires forall i :: RequestClass(size) <= i < k ==> lists[i] == []
    ensures Chosen(blk, lists, size, lists[k][0])
  {
  }

  /** The own list holds a first fit, which in classes 1 and 2 is its head. */
  lemma ChosenOwn(blk: Blocks, lists: seq<seq<nat>>, size: nat, p: nat)
    requires |lists| == CLASSES && FirstFit(blk, lists[RequestClass(size)], p, size) && Fits(blk, p, size)
    requires RequestClass(size) in {1, 2} ==> p == lists[RequestClass(size)][0]
    ensures Chosen(blk, lists, size, p)
  {
    var i :| 0 <= i < |lists[RequestClass(size)]| && lists[RequestClass(size)][i] == p;
    assert p in lists[RequestClass(size)];
  }

  /** Searching on with the smallest request of class `k` finds a block iff some list from `k` on is
      not empty. */
  lemma FindableFrom(m: seq<nat>, lo: nat, blk: Blocks, lists: seq<seq<nat>>, base: nat, epi: nat, size: nat)
    requires Listed(m, lo, blk, lists) && Sized(blk, base, epi)
    requires size in {17, 49, 81, 177, 497}
    ensures Findable(blk, lists, size) <==> exists k :: RequestClass(size) <= k < CLASSES && lists[k] != []
  {
    hide Linked;
    var c := RequestClass(size);
    if lists[c] != [] {
      var p := lists[c][0];
      assert p in lists[c];
      assert Fits(blk, p, size);
    }
  }

  /** A block of every request's last class makes the request findable if it fits. */
  lemma BigBlockFindable(m: seq<nat>, lo: nat, blk: Blocks, lists: seq<seq<nat>>, g: nat, size: nat)
    requires Listed(m, lo, blk, lists)
    requires g in blk && blk[g].status == Free && ClassOf(blk[g].words) == 5 && Fits(blk, g, size)
    ensures Findable(blk, lists, size)
  {
    assert g in lists[5];
    if RequestClass(size) < 5 {
      assert lists[5] != [];
    }
  }

  /** The only allocated block that `blk` has and `blk0` does not is `p`. */
  ghost predicate OnlyNewUsed(blk0: Blocks, blk: Blocks, p: int) {
    forall q :: q in blk && blk[q].status == Used && q != p ==> q in blk0 && blk0[q] == blk[q]
  }

  function GrowWords(size: nat): nat {
    if PAGE_WORDS < NeedWords(size) then NeedWords(size) else PAGE_WORDS
  }

  /** Exactly when a request gets NULL: it is empty, or nothing is found and the region has no room for a page, or none
      for the block. */
  ghost predicate Refuses(blk: Blocks, lists: seq<seq<nat>>, size: nat, brk: nat, end: nat)
    requires |lists| == CLASSES
  {
    size == 0 || (!Findable(blk, lists, size) && (end < brk + 512 || end < brk + 2 * ((size + 31) / 16)))
  }

  /** Where the break is after a request that got a block: the heap grows only if nothing is found, by a page or by the
      block, whichever is larger. */
  ghost predicate Grows(blk: Blocks, lists: seq<seq<nat>>, size: nat, brk: nat, brk': nat)
    requires |lists| == CLASSES
  {
    brk' == if Findable(blk, lists, size) then brk
            else if 2 * ((size + 31) / 16) <= 512 then brk + 512
            else brk + 2 * ((size + 31) / 16)
  }

  /** Exactly when a block can serve `size` bytes where it is: alone, or with the free block after it. */
  ghost predicate ServesInPlace(blk: Blocks, p: nat, size: nat) {
    && p in blk
    && (|| 2 * ((size + 31) / 16) <= blk[p].words
        || (Next(blk, p) in blk && blk[Next(blk, p)].status == Free && 2 * ((size + 31) / 16) <= blk[p].words + blk[Next(blk, p)].words))
  }

  /** Block `p` of `w` words joins the free ones, in front of the list of its class. */
  ghost predicate Frees(blk: Blocks, lists: seq<seq<nat>>, p: nat, w: nat, blk': Blocks, lists': seq<seq<nat>>) {
    && |lists| == CLASSES && blk' == blk[p := Block(w, Free)]
    && lists' == lists[ClassOf(w) := [p] + lists[ClassOf(w)]]
  }

  /** Free block `b` is taken for `w` words; what is left of it, if that is a block, joins the free ones. */
  ghost predicate Took(blk: Blocks, lists: seq<seq<nat>>, b: nat, w: nat, blk': Blocks, lists': seq<seq<nat>>) {
    && |lists| == CLASSES && b in blk && w <= blk[b].words && b in lists[ClassOf(blk[b].words)]
    && var rest := blk[b].words - w;
       var lists1 := lists[ClassOf(blk[b].words) := Without(lists[ClassOf(blk[b].words)], b)];
       if 4 <= rest then Frees(blk[b := Block(w, Used)], lists1, b + w, rest, blk', lists')
       else blk' == blk[b := Block(blk[b].words, Used)] && lists' == lists1
  }

  lemma ListedHere(m: seq<nat>, lo: nat, brk: nat, end: nat, blk: Blocks, lists: seq<seq<nat>>, p: nat)
    requires Shape(m, lo, brk, end, blk, lists, NULL) && p in blk && blk[p].status == Free
    ensures |lists| == CLASSES && p in lists[ClassOf(blk[p].words)]
  {
    hide Tagged, Tiled, Coalesced, Linked;
  }

  /** What is left of a free block has no free neighbour. */
  lemma RestIsolated(m: seq<nat>, lo: nat, brk: nat, end: nat, blk: Blocks, lists: seq<seq<nat>>, b: nat, w: nat)
    requires Shape(m, lo, brk, end, blk, lists, NULL) && b in blk && blk[b].status == Free && 0 < w < blk[b].words
    ensures var blk1 := Split(blk[b := Block(blk[b].words, Loose)], b, w, Used, Loose); b + w in blk1 && Isolated(blk1, b + w)
  {
    hide Tagged, Listed;
    var blk1 := Split(blk[b := Block(blk[b].words, Loose)], b, w, Used, Loose);
    SplitDisjoint(blk, b, w, Used, Loose);
    assert Next(blk1, b + w) == Next(blk, b);
    forall q | q in blk1 && Next(blk1, q) == b + w
      ensures blk1[q].status != Free
    {
    }
  }

  lemma CarvedTook(blk: Blocks, lists: seq<seq<nat>>, b: nat, w: nat, blk1: Blocks, lists1: seq<seq<nat>>, blk2: Blocks, lists2: seq<seq<nat>>)
    requires |lists| == CLASSES && b in blk && w <= blk[b].words && b in lists[ClassOf(blk[b].words)]
    requires blk1 == blk[b := Block(blk[b].words, Loose)]
    requires lists1 == lists[ClassOf(blk[b].words) := Without(lists[ClassOf(blk[b].words)], b)]
    requires blk[b].words - w < 4 ==> blk2 == blk1[b := Block(blk[b].words, Used)] && lists2 == lists1
    requires 4 <= blk[b].words - w ==> Frees(Split(blk1, b, w, Used, Loose), lists1, b + w, blk[b].words - w, blk2, lists2)
    ensures Took(blk, lists, b, w, blk2, lists2)
  {
    hide Without;
  }

  lemma FirstList(p: nat)
    ensures ClassOf(PAGE_WORDS) == 5
    ensures var lists: seq<seq<nat>> := [[], [], [], [], [], []]; lists[5 := [p] + lists[5]] == [[], [], [], [], [], [p]]
  {
    var lists: seq<seq<nat>> := [[], [], [], [], [], []];
    assert [p] + lists[5] == [p];
  }

  lemma FreeBefore(blk: Blocks, p: nat, q: nat)
    requires p in blk && Next(blk, p) == q && blk[p].status == Free
    ensures !NoFreeBefore(blk, q)
  {
  }

  lemma LooseIsolated(blk: Blocks, p: nat, blk': Blocks)
    requires p in blk && 0 < blk[p].words && blk' == blk[p := Block(blk[p].words, Loose)] && Isolated(blk, p)
    ensures Isolated(blk', p)
  {
    assert Next(blk', p) == Next(blk, p);
    forall q | q in blk' && Next(blk', q) == p
      ensures blk'[q].status != Free
    {
      assert Next(blk, q) == p;
    }
  }

  /** Nothing lies beyond the last block. */
  lemma LastIsolated(m: seq<nat>, lo: nat, brk: nat, end: nat, blk: Blocks, lists: seq<seq<nat>>, w: nat)
    requires Shape(m, lo, brk, end, blk, lists, NULL) && 0 < w && NoFreeBefore(blk, brk - 1)
    ensures Isolated(blk[brk - 1 := Block(w, Loose)], brk - 1)
  {
    hide Tagged, Listed, Coalesced;
    var blk' := blk[brk - 1 := Block(w, Loose)];
    forall q | q in blk' && Next(blk', q) == brk - 1
      ensures blk'[q].status != Free
    {
      assert Next(blk, q) == brk - 1;
    }
  }

  class Kmalloc {
    var mem: seq<nat>
    const lo: nat
    const end: nat
    var brk: nat
    ghost var blk: Blocks
    ghost var lists: seq<seq<nat>>

    ghost predicate Shaped(skip: nat)
      reads this
    {
      Shape(mem, lo, brk, end, blk, lists, skip)
    }

    ghost predicate Valid()
      reads this
    {
      Shaped(NULL) && NoLoose(blk)
    }

    // -------------------------------------------------------------------------
    // Free lists
    // -------------------------------------------------------------------------

    /** `insert_free`: link the block in front of the list of its size class. */
    method InsertFree(ptr: nat)
      requires Shaped(NULL) && 0 < ptr
      requires ptr - 1 in blk && blk[ptr - 1].status == Loose && Isolated(blk, ptr - 1)
      modifies this`mem, this`blk, this`lists
      ensures Shaped(NULL)
      ensures blk == old(blk)[ptr - 1 := Block(old(blk)[ptr - 1].words, Free)] && |old(lists)| == CLASSES
      ensures var k := ClassOf(old(blk)[ptr - 1].words); lists == old(lists)[k := [ptr - 1] + old(lists)[k]]
      ensures Keeps(old(mem), old(blk), mem, blk, NULL)
    {
      hide Tagged, Tiled, Listed, Coalesced, Keeps, Isolated;
      var block := ptr - 1;
      BlockFacts(mem, lo, brk, end, blk, lists, NULL, block);
      LinkShape(mem, lo, brk, end, blk, lists, block);
      LinkWrites(mem, lo, brk, blk, lists, ClassOf(blk[block].words));
      var k := ClassOf(TagWords(mem[block]));
      var oldHead := mem[lo + k];
      ghost var m := mem;
      mem := mem[block + 2 := oldHead];
      mem := mem[block + 1 := NULL];
      if oldHead != NULL {
        mem := mem[oldHead + 1 := block];
      }
      mem := mem[lo + k := block];
      assert mem == LinkedIn(m, lo, k, block);
      lists := lists[k := [block] + lists[k]];
      blk := blk[block := Block(blk[block].words, Free)];
    }

    /** `remove_free`: unlink the block of `words` words from its list. */
    method RemoveFree(ptr: nat, words: nat)
      requires Shaped(NULL) && 0 < ptr
      requires ptr - 1 in blk && blk[ptr - 1] == Block(words, Free)
      modifies this`mem, this`blk, this`lists
      ensures Shaped(NULL)
      ensures blk == old(blk)[ptr - 1 := Block(words, Loose)] && |old(lists)| == CLASSES
      ensures lists == old(lists)[ClassOf(words) := Without(old(lists)[ClassOf(words)], ptr - 1)]
      ensures Keeps(old(mem), old(blk), mem, blk, NULL)
    {
      hide Tagged, Tiled, Listed, Coalesced, Keeps;
      var block := ptr - 1;
      BlockFacts(mem, lo, brk, end, blk, lists, NULL, block);
      UnlinkShape(mem, lo, brk, end, blk, lists, NULL, block);
      UnlinkWrites(mem, lo, brk, blk, lists, block);
      ghost var m, k := mem, ClassOf(words);
      if mem[block + 1] != NULL {
        mem := mem[mem[block + 1] + 2 := mem[block + 2]];
      } else {
        mem := mem[lo + ClassOf(words) := mem[block + 2]];
      }
      assert mem[block + 1] == m[block + 1] && mem[block + 2] == m[block + 2];
      if mem[block + 2] != NULL {
        mem := mem[mem[block + 2] + 1 := mem[block + 1]];
      }
      assert mem == Unlinked(m, lo, k, block);
      lists := lists[k := Without(lists[k], block)];
      blk := blk[block := Block(words, Loose)];
    }
  
    // -------------------------------------------------------------------------
    // Coalescing and growth
    // -------------------------------------------------------------------------

    /** First half of `coalesce`: swallow the block before `ptr` if it is free. */
    method AbsorbPrev(ptr: nat) returns (r: nat, words: nat)
      requires Shaped(NULL) && 1 < ptr
      requires ptr - 1 in blk && blk[ptr - 1].status == Loose && OnlyLoose(blk, ptr - 1)
      modifies this`mem, this`blk, this`lists
      ensures Shaped(NULL) && 0 < r <= ptr
      ensures r - 1 in blk && blk[r - 1] == Block(words, Loose) && OnlyLoose(blk, r - 1)
      ensures NoFreeBefore(blk, r - 1) && Next(blk, r - 1) == Next(old(blk), ptr - 1)
      ensures NoFreeBefore(old(blk), ptr - 1) ==> r == ptr && blk == old(blk) && lists == old(lists)
      ensures Keeps(old(mem), old(blk), mem, blk, NULL) && NoNewUsed(old(blk), blk)
    {
      hide Tagged, Tiled, Listed, Coalesced, Keeps, NoFreeBefore, SamePayload;
      BlockFacts(mem, lo, brk, end, blk, lists, NULL, ptr - 1);
      words := TagWords(mem[ptr - 1]);
      r := ptr;
      ghost var p := FindPrev(blk, lo + 6, brk - 1, ptr - 1, lo + 6);
      BlockFacts(mem, lo, brk, end, blk, lists, NULL, p);
      if !TagUsed(mem[ptr - 2]) {
        var prevWords := TagWords(mem[ptr - 2]);
        ghost var m0, blk0 := mem, blk;
        FreeBefore(blk, p, ptr - 1);
        RemoveFree(ptr - prevWords, prevWords);
        ghost var m1, blk1 := mem, blk;
        mem := mem[ptr - prevWords - 1 := Tag(prevWords + words, false)];
        mem := mem[ptr + words - 2 := Tag(prevWords + words, false)];
        blk := Merge(blk, p, ptr - 1, Loose);
        MergeShape(m1, lo, brk, end, blk1, lists, p, ptr - 1, Loose, mem, blk);
        KeepsBut(m1, blk1, mem, blk, p);
        MergedPrevIsolates(blk0, p, ptr - 1, blk);
        KeepsTransIn(m0, lo, brk, blk0, m1, blk1, mem, blk, NULL);
        words := prevWords + words;
        r := ptr - prevWords;
      } else {
        UsedBefore(blk, lo + 6, brk - 1, p, ptr - 1);
        KeepsSelf(mem, blk);
      }
    }
  
    /** Second half of `coalesce`: swallow the block after `ptr` if it is free. */
    method AbsorbNext(ptr: nat, words: nat)
      requires Shaped(NULL) && 0 < ptr
      requires ptr - 1 in blk && blk[ptr - 1] == Block(words, Loose) && OnlyLoose(blk, ptr - 1)
      requires NoFreeBefore(blk, ptr - 1)
      modifies this`mem, this`blk, this`lists
      ensures Shaped(NULL)
      ensures ptr - 1 in blk && blk[ptr - 1].status == Loose && OnlyLoose(blk, ptr - 1)
      ensures Isolated(blk, ptr - 1) && words <= blk[ptr - 1].words
      ensures NoFreeAfter(old(blk), ptr - 1) ==> blk == old(blk) && lists == old(lists)
      ensures Keeps(old(mem), old(blk), mem, blk, NULL) && NoNewUsed(old(blk), blk)
    {
      hide Tagged, Tiled, Listed, Coalesced, Keeps, NoFreeBefore, SamePayload;
      BlockFacts(mem, lo, brk, end, blk, lists, NULL, ptr - 1);
      ghost var q := ptr + words - 1;
      NextFacts(mem, lo, brk, end, blk, lists, ptr - 1);
      if !TagUsed(mem[ptr + words - 1]) {
        BlockFacts(mem, lo, brk, end, blk, lists, NULL, q);
        var nextWords := TagWords(mem[ptr + words - 1]);
        ghost var m0, blk0 := mem, blk;
        RemoveFree(ptr + words, nextWords);
        ghost var m1, blk1 := mem, blk;
        mem := mem[ptr - 1 := Tag(words + nextWords, false)];
        mem := mem[ptr + words + nextWords - 2 := Tag(words + nextWords, false)];
        blk := Merge(blk, ptr - 1, q, Loose);
        MergeShape(m1, lo, brk, end, blk1, lists, ptr - 1, q, Loose, mem, blk);
        KeepsBut(m1, blk1, mem, blk, ptr - 1);
        MergedNextIsolates(blk0, ptr - 1, q, blk);
        KeepsTransIn(m0, lo, brk, blk0, m1, blk1, mem, blk, NULL);
      } else {
        KeepsSelf(mem, blk);
      }
    }

    /** `coalesce`: merge a loose block with whichever neighbours are free. */
    method Coalesce(ptr: nat) returns (r: nat)
      requires Shaped(NULL) && 1 < ptr
      requires ptr - 1 in blk && blk[ptr - 1].status == Loose && OnlyLoose(blk, ptr - 1)
      modifies this`mem, this`blk, this`lists
      ensures Shaped(NULL) && 0 < r <= ptr
      ensures r - 1 in blk && blk[r - 1].status == Loose && OnlyLoose(blk, r - 1) && Isolated(blk, r - 1)
      ensures Next(old(blk), ptr - 1) <= Next(blk, r - 1)
      ensures Isolated(old(blk), ptr - 1) ==> r == ptr && blk == old(blk) && lists == old(lists)
      ensures Keeps(old(mem), old(blk), mem, blk, NULL) && NoNewUsed(old(blk), blk)
    {
      hide Tagged, Tiled, Listed, Coalesced, Keeps, NoFreeBefore, SamePayload;
      var words;
      r, words := AbsorbPrev(ptr);
      ghost var m1, blk1 := mem, blk;
      AbsorbNext(r, words);
      KeepsTransIn(old(mem), lo, brk, old(blk), m1, blk1, mem, blk, NULL);
    }

    /** `initialize_free`: tag the `words` words at `hdr` as a free block, merge it with free
        neighbours and put the result on its list.  The ghost result is that block. */
    method InitializeFree(hdr: nat, words: nat) returns (ghost g: nat)
      requires Shaped(hdr) && 0 < hdr
      requires hdr in blk && blk[hdr] == Block(words, Loose) && OnlyLoose(blk, hdr)
      modifies this`mem, this`blk, this`lists
      ensures Valid()
      ensures g in blk && blk[g].status == Free && g <= hdr && hdr + words <= Next(blk, g)
      ensures Isolated(old(blk), hdr) ==> Frees(old(blk), old(lists), hdr, words, blk, lists)
      ensures Keeps(old(mem), old(blk), mem, blk, NULL) && NoNewUsed(old(blk), blk)
    {
      hide Tagged, Tiled, Listed, Coalesced, Keeps, Isolated, SamePayload;
      BlockFacts(mem, lo, brk, end, blk, lists, hdr, hdr);
      mem := mem[hdr := Tag(words, false)];
      mem := mem[hdr + words - 1 := Tag(words, false)];
      ghost var m1 := mem;
      RestampShape(old(mem), lo, brk, end, blk, lists, hdr, hdr, Loose, mem, blk);
      KeepsBut(old(mem), blk, mem, blk, hdr);
      var ptr := Coalesce(hdr + 1);
      ghost var m2, blk2 := mem, blk;
      KeepsTransIn(old(mem), lo, brk, old(blk), m1, old(blk), m2, blk2, NULL);
      InsertFree(ptr);
      KeepsTransIn(old(mem), lo, brk, old(blk), m2, blk2, mem, blk, NULL);
      g := ptr - 1;
    }

    /** `extend_heap`: grow the heap by `words` words, if the region has room for them. */
    method ExtendHeap(words: nat) returns (ok: bool, ghost g: nat)
      requires Valid() && 4 <= words && words % 2 == 0
      modifies this
      ensures Valid()
      ensures ok <==> old(brk) + words <= end
      ensures !ok ==> mem == old(mem) && brk == old(brk) && blk == old(blk) && lists == old(lists)
      ensures ok ==> brk == old(brk) + words
      ensures ok ==> g in blk && blk[g].status == Free && words <= blk[g].words
      ensures ok && NoFreeBefore(old(blk), old(brk) - 1) ==> Frees(old(blk), old(lists), old(brk) - 1, words, blk, lists)
      ensures Keeps(old(mem), old(blk), mem, blk, NULL) && NoNewUsed(old(blk), blk)
    {
      hide Tagged, Tiled, Listed, Coalesced, Keeps, SamePayload;
      g := NULL;
      if end < brk + words {
        KeepsSelf(mem, blk);
        return false, g;
      }
      var hdr := brk - 1;
      brk := brk + words;
      mem := mem[hdr + words := Tag(0, true)];
      blk := blk[hdr := Block(words, Loose)];
      ExtendShape(old(mem), lo, old(brk), end, old(blk), lists, words, mem, blk);
      ghost var m1, blk1 := mem, blk;
      if NoFreeBefore(old(blk), hdr) {
        LastIsolated(old(mem), lo, old(brk), end, old(blk), lists, words);
      }
      g := InitializeFree(hdr, words);
      KeepsTransIn(old(mem), lo, old(brk), old(blk), m1, blk1, mem, blk, NULL);
      ok := true;
    }
  
    // -------------------------------------------------------------------------
    // Searching
    // -------------------------------------------------------------------------

    /** The head of list `k`. */
    method Head(k: nat) returns (p: nat)
      requires Shaped(NULL) && k < CLASSES
      ensures |lists| == CLASSES && p == At(lists[k], 0) && (p == NULL <==> lists[k] == [])
      ensures p != NULL ==> p in lists[k] && p in blk && blk[p].status == Free
      ensures p != NULL ==> p < |mem| && TagWords(mem[p]) == blk[p].words && blk[p].words % 2 == 0 && ClassOf(blk[p].words) == k
    {
      hide Tagged, Tiled, Coalesced, Linked;
      LinkWrites(mem, lo, brk, blk, lists, k);
      p := mem[lo + k];
      if lists[k] != [] {
        assert lists[k][0] in lists[k];
        BlockFacts(mem, lo, brk, end, blk, lists, NULL, lists[k][0]);
      }
    }

    /** The loop of `get_free_list` over list `k`: the first block on it that fits. */
    method Scan(k: nat, size: nat) returns (r: nat)
      requires Shaped(NULL) && k < CLASSES
      ensures |lists| == CLASSES
      ensures r == NULL ==> forall p :: p in lists[k] ==> !Fits(blk, p, size)
      ensures r != NULL ==> r - 1 in lists[k] && blk[r - 1].status == Free && Fits(blk, r - 1, size)
      ensures r != NULL ==> FirstFit(blk, lists[k], r - 1, size)
      ensures RequestClass(size) < k && lists[k] != [] ==> r == lists[k][0] + 1
    {
      hide Tagged, Tiled, Coalesced, Linked;
      var fp := Head(k);
      ghost var i := 0;
      while fp != NULL
        invariant 0 <= i <= |lists[k]|
        invariant fp == At(lists[k], i) && (fp == NULL <==> i == |lists[k]|)
        invariant forall j :: 0 <= j < i ==> !Fits(blk, lists[k][j], size)
        invariant RequestClass(size) < k ==> i == 0
        decreases |lists[k]| - i
      {
        ListedFacts(mem, lo, brk, blk, lists, k, i);
        BlockFacts(mem, lo, brk, end, blk, lists, NULL, fp);
        assert fp in lists[k];
        if NeedWords(size) <= TagWords(mem[fp]) {
          return fp + 1;
        }
        if i + 1 < |lists[k]| {
          ListedFacts(mem, lo, brk, blk, lists, k, i + 1);
        }
        fp := mem[fp + 2];
        i := i + 1;
      }
      r := NULL;
    }

    /** `get_free_list`: the chosen block, never one that is too small although the size is rewritten on the way; and NULL
        exactly when the request is not findable. */
    method GetFreeList(size: nat) returns (r: nat)
      requires Shaped(NULL)
      ensures |lists| == CLASSES
      ensures r != NULL <==> Findable(blk, lists, size)
      ensures r != NULL ==> r - 1 in blk && blk[r - 1].status == Free && Fits(blk, r - 1, size)
      ensures r != NULL ==> Chosen(blk, lists, size, r - 1)
      decreases CLASSES - RequestClass(size), 1
    {
      hide Tagged, Tiled, Coalesced, Listed, FirstFit, Chosen, HeadFrom;
      var h0 := Head(0);
      var h1 := Head(1);
      var h2 := Head(2);
      var h3 := Head(3);
      var h4 := Head(4);
      if size <= 16 && h0 != NULL {
        r := ScanFrom(0, 17, size);
      } else if size <= 48 && h1 != NULL {
        r := HeadOrOn(1, 49, size);
      } else if size <= 80 && h2 != NULL {
        r := HeadOrOn(2, 81, size);
      } else if size <= 176 && h3 != NULL {
        r := ScanFrom(3, 177, size);
      } else if size <= 496 && h4 != NULL {
        r := ScanFrom(4, 497, size);
      } else {
        r := Scan(5, size);
        if r != NULL {
          ChosenLast(size, r - 1);
        }
      }
    }

    lemma ChosenLast(size: nat, p: nat)
      requires |lists| == CLASSES && FirstFit(blk, lists[5], p, size) && Fits(blk, p, size)
      requires RequestClass(size) < 5 ==> lists[5] != [] && p == lists[5][0] && forall i :: RequestClass(size) <= i < 5 ==> lists[i] == []
      ensures Chosen(blk, lists, size, p)
    {
      if RequestClass(size) < 5 {
        ChosenHead(blk, lists, size, 5);
      } else {
        ChosenOwn(blk, lists, size, p);
      }
    }

    /** A round of `get_free_list` that goes through its list, and then on with the size `next`. */
    method ScanFrom(k: nat, next: nat, size: nat) returns (r: nat)
      requires Shaped(NULL) && size < next && (k, next) in {(0, 17), (3, 177), (4, 497)}
      requires |lists| == CLASSES && lists[k] != [] && forall i :: RequestClass(size) <= i < k ==> lists[i] == []
      ensures r != NULL <==> Findable(blk, lists, size)
      ensures r != NULL ==> r - 1 in blk && blk[r - 1].status == Free && Fits(blk, r - 1, size) && Chosen(blk, lists, size, r - 1)
      decreases CLASSES - RequestClass(size), 0
    {
      hide Tagged, Tiled, Coalesced, Listed, FirstFit, Chosen, HeadFrom;
      r := Scan(k, size);
      if r == NULL {
        r := SearchOn(next, size);
        if r != NULL {
          ChosenNext(blk, lists, size, r - 1);
        }
      } else if RequestClass(size) < k {
        ChosenHead(blk, lists, size, k);
      } else {
        ChosenOwn(blk, lists, size, r - 1);
      }
    }

    /** A round that looks at the head of its list only. */
    method HeadOrOn(k: nat, next: nat, size: nat) returns (r: nat)
      requires Shaped(NULL) && size < next && (k, next) in {(1, 49), (2, 81)}
      requires |lists| == CLASSES && lists[k] != [] && forall i :: RequestClass(size) <= i < k ==> lists[i] == []
      ensures r != NULL <==> Findable(blk, lists, size)
      ensures r != NULL ==> r - 1 in blk && blk[r - 1].status == Free && Fits(blk, r - 1, size) && Chosen(blk, lists, size, r - 1)
      decreases CLASSES - RequestClass(size), 0
    {
      hide Tagged, Tiled, Coalesced, Listed, Chosen, HeadFrom;
      var h := Head(k);
      if NeedWords(size) <= TagWords(mem[h]) {
        if RequestClass(size) < k {
          ChosenHead(blk, lists, size, k);
        } else {
          assert FirstFit(blk, lists[k], h, size) by { assert lists[k][0] == h; }
          ChosenOwn(blk, lists, size, h);
        }
        return h + 1;
      }
      r := SearchOn(next, size);
      if r != NULL {
        ChosenNext(blk, lists, size, r - 1);
      }
    }

    method SearchOn(next: nat, size: nat) returns (r: nat)
      requires Shaped(NULL) && size < next && next in {17, 49, 81, 177, 497}
      requires RequestClass(size) < RequestClass(next)
      ensures |lists| == CLASSES
      ensures r != NULL <==> exists k :: RequestClass(next) <= k < CLASSES && lists[k] != []
      ensures r != NULL ==> r - 1 in blk && blk[r - 1].status == Free && Fits(blk, r - 1, size) && HeadFrom(lists, RequestClass(next), r - 1)
      decreases CLASSES - RequestClass(next), 2
    {
      hide Tagged, Coalesced, Linked, Chained, Disjoint, Chosen, HeadFrom;
      FindableFrom(mem, lo, blk, lists, lo + 6, brk - 1, next);
      r := GetFreeList(next);
      if r != NULL {
        ChosenFrom(mem, lo, blk, lists, lo + 6, brk - 1, next, r - 1);
      }
    }
  
    // -------------------------------------------------------------------------
    // The public operations
    // -------------------------------------------------------------------------

    /** `ptr` is the payload address of an allocated block other than the prologue. */
    ghost predicate Live(ptr: nat)
      reads this
    {
      0 < ptr && ptr - 1 in blk && blk[ptr - 1].status == Used && ptr - 1 != lo + 6
    }

    ghost function PayloadWords(ptr: nat): int
      requires Live(ptr)
      reads this
    {
      blk[ptr - 1].words - 2
    }

    ghost function Contents(ptr: nat): seq<nat>
      requires Live(ptr)
      reads this
    {
      Payload(mem, ptr - 1, blk[ptr - 1].words)
    }

    /** The region `kmem_init` hands over; nothing is laid out yet. */
    constructor (m: seq<nat>, start: nat, limit: nat)
      requires 0 < start <= limit <= |m|
      ensures mem == m && lo == start && end == limit && brk == start
    {
      mem, lo, end, brk := m, start, limit, start;
      blk, lists := map[], [];
    }

    /** `kmm_init`: lay out list heads, prologue and epilogue, then grow by one page. */
    method Init() returns (ok: bool)
      requires 0 < lo == brk <= end <= |mem|
      modifies this
      ensures ok <==> lo + 521 <= end
      ensures ok ==> Valid() && brk == lo + 521
      ensures ok ==> blk == map[lo + 6 := Block(2, Used), lo + 8 := Block(512, Free)] && lists == [[], [], [], [], [], [lo + 8]]
    {
      if end < brk + CLASSES {
        return false;
      }
      brk := brk + CLASSES;
      for i := 0 to CLASSES
        invariant |mem| == |old(mem)| && brk == lo + CLASSES
        invariant forall j :: lo <= j < lo + i ==> mem[j] == NULL
      {
        mem := mem[lo + i := NULL];
      }
      if end < brk + 3 {
        return false;
      }
      var heap := brk;
      brk := brk + 3;
      mem := mem[heap := Tag(2, true)];
      mem := mem[heap + 1 := Tag(2, true)];
      mem := mem[heap + 2 := Tag(0, true)];
      blk := map[heap := Block(2, Used)];
      lists := [[], [], [], [], [], []];
      InitialShape(mem, lo, end, blk, lists);
      ghost var g;
      assert NoFreeBefore(blk, brk - 1);
      ok, g := ExtendHeap(PAGE_WORDS);
      FirstList(lo + 8);
    }

    /** `get_allocation`: take a block off the lists for a request of `size` bytes, and split it
        when at least 32 bytes would be left over. */
    method GetAllocation(size: nat) returns (r: nat)
      requires Valid() && 0 < size
      modifies this`mem, this`blk, this`lists
      ensures Valid() && |old(lists)| == CLASSES
      ensures r != NULL <==> Findable(old(blk), old(lists), size)
      ensures r == NULL ==> mem == old(mem) && blk == old(blk) && lists == old(lists)
      ensures r != NULL ==> Live(r) && size <= 8 * PayloadWords(r) && 2 * ((size + 31) / 16) <= blk[r - 1].words < 2 * ((size + 31) / 16) + 4
      ensures r != NULL ==> r - 1 in old(blk) && old(blk)[r - 1].status == Free
      ensures r != NULL ==> Took(old(blk), old(lists), r - 1, 2 * ((size + 31) / 16), blk, lists) && Chosen(old(blk), old(lists), size, r - 1)
      ensures Keeps(old(mem), old(blk), mem, blk, NULL) && OnlyNewUsed(old(blk), blk, r - 1)
    {
      hide Tagged, Tiled, Listed, Coalesced, Keeps, SamePayload, Findable, Chosen, Isolated, NoFreeBefore, NoFreeAfter, Without, Took, Frees, Split;
      r := GetFreeList(size);
      if r == NULL {
        KeepsSelf(mem, blk);
        return;
      }
      var block := r - 1;
      BlockFacts(mem, lo, brk, end, blk, lists, NULL, block);
      var blockWords := TagWords(mem[block]);
      ListedHere(mem, lo, brk, end, blk, lists, block);
      if NeedWords(size) < blockWords {
        RestIsolated(mem, lo, brk, end, blk, lists, block, NeedWords(size));
      }
      RemoveFree(r, blockWords);
      ghost var m1, blk1, lists1 := mem, blk, lists;
      Carve(block, blockWords, NeedWords(size));
      CarvedTook(old(blk), old(lists), block, NeedWords(size), blk1, lists1, blk, lists);
      KeepsTransIn(old(mem), lo, brk, old(blk), m1, blk1, mem, blk, NULL);
    }

    /** The tail of `get_allocation`: tag the block taken off its list as allocated, whole or in its
        first `words` words. */
    method Carve(block: nat, blockWords: nat, words: nat)
      requires Shaped(NULL) && 4 <= words <= blockWords && words % 2 == 0
      requires block in blk && blk[block] == Block(blockWords, Loose) && OnlyLoose(blk, block)
      modifies this`mem, this`blk, this`lists
      ensures Valid()
      ensures block in blk && blk[block].status == Used && words <= blk[block].words < words + 4
      ensures blockWords - words < 4 ==> blk == old(blk)[block := Block(blockWords, Used)] && lists == old(lists)
      ensures 4 <= blockWords - words && Isolated(Split(old(blk), block, words, Used, Loose), block + words) ==>
                Frees(Split(old(blk), block, words, Used, Loose), old(lists), block + words, blockWords - words, blk, lists)
      ensures Keeps(old(mem), old(blk), mem, blk, NULL) && OnlyNewUsed(old(blk), blk, block)
    {
      hide Tagged, Tiled, Listed, Coalesced, Keeps, SamePayload;
      ghost var m1, blk1 := mem, blk;
      BlockFacts(mem, lo, brk, end, blk, lists, NULL, block);
      if 4 <= blockWords - words {
        mem := mem[block := Tag(words, true)];
        mem := mem[block + words - 1 := Tag(words, true)];
        blk := Split(blk, block, words, Used, Loose);
        SplitShape(m1, lo, brk, end, blk1, lists, block, words, mem, blk);
        ghost var m2, blk2 := mem, blk;
        ghost var g := InitializeFree(block + words, blockWords - words);
        KeepsAt(m2, blk2, mem, blk, block);
        KeepsTransIn(m1, lo, brk, blk1, m2, blk2, mem, blk, NULL);
      } else {
        mem := mem[block := Tag(blockWords, true)];
        mem := mem[block + blockWords - 1 := Tag(blockWords, true)];
        blk := blk[block := Block(blockWords, Used)];
        RestampShape(m1, lo, brk, end, blk1, lists, NULL, block, Used, mem, blk);
        KeepsBut(m1, blk1, mem, blk, block);
      }
    }

    /** `kmalloc`: NULL for an empty request, and otherwise exactly when no block is findable and the
        region has no room to grow. */
    method Alloc(size: nat) returns (r: nat)
      requires Valid()
      modifies this
      ensures Valid() && |old(lists)| == CLASSES
      ensures r == NULL <==> Refuses(old(blk), old(lists), size, old(brk), end)
      ensures r == NULL ==> mem == old(mem) && brk == old(brk) && blk == old(blk) && lists == old(lists)
      ensures r != NULL ==> Live(r) && size <= 8 * PayloadWords(r)
      ensures r != NULL ==> !(r - 1 in old(blk) && old(blk)[r - 1].status == Used)
      ensures r != NULL ==> 2 * ((size + 31) / 16) <= blk[r - 1].words < 2 * ((size + 31) / 16) + 4
      ensures r != NULL && Findable(old(blk), old(lists), size) ==>
                Took(old(blk), old(lists), r - 1, 2 * ((size + 31) / 16), blk, lists) && Chosen(old(blk), old(lists), size, r - 1)
      ensures r != NULL ==> Grows(old(blk), old(lists), size, old(brk), brk)
      ensures Keeps(old(mem), old(blk), mem, blk, NULL) && OnlyNewUsed(old(blk), blk, r - 1)
    {
      hide Tagged, Tiled, Listed, Coalesced, Keeps, SamePayload, Findable, Chosen, Took;
      BaseFacts(mem, lo, brk, end, blk, lists);
      if size == 0 {
        KeepsSelf(mem, blk);
        return NULL;
      }
      r := GetAllocation(size);
      if r == NULL {
        var grow := GrowWords(size);
        var ok;
        ghost var g;
        ok, g := ExtendHeap(grow);
        if !ok {
          return NULL;
        }
        ghost var m1, blk1 := mem, blk;
        BigBlockFindable(mem, lo, blk, lists, g, size);
        r := GetAllocation(size);
        if r - 1 in old(blk) && old(blk)[r - 1].status == Used {
          KeepsAt(old(mem), old(blk), m1, blk1, r - 1);
        }
        KeepsTransIn(old(mem), lo, old(brk), old(blk), m1, blk1, mem, blk, NULL);
      }
    }

    /** `kfree`: only the freed block changes hands. */
    method Release(ptr: nat)
      requires Valid() && (ptr == NULL || Live(ptr))
      modifies this`mem, this`blk, this`lists
      ensures Valid()
      ensures ptr == NULL ==> mem == old(mem) && blk == old(blk) && lists == old(lists)
      ensures ptr != NULL ==> !(ptr - 1 in blk && blk[ptr - 1].status == Used)
      ensures ptr != NULL && Isolated(old(blk), ptr - 1) ==> Frees(old(blk), old(lists), ptr - 1, old(blk)[ptr - 1].words, blk, lists)
      ensures ptr != NULL ==> Keeps(old(mem), old(blk), mem, blk, ptr - 1) && NoNewUsed(old(blk), blk)
    {
      hide Tagged, Tiled, Listed, Coalesced, Keeps, SamePayload;
      if ptr == NULL {
        return;
      }
      var hdr := ptr - 1;
      BlockFacts(mem, lo, brk, end, blk, lists, NULL, hdr);
      var words := TagWords(mem[hdr]);
      blk := blk[hdr := Block(words, Loose)];
      LooseShape(mem, lo, brk, end, old(blk), lists, hdr, blk);
      if Isolated(old(blk), hdr) {
        LooseIsolated(old(blk), hdr, blk);
      }
      ghost var g := InitializeFree(hdr, words);
      KeepsLess(mem, old(mem), old(blk), hdr, old(blk)[hdr := Block(words, Loose)], blk);
    }
  
    /** The owner of a block stores a word in it. */
    method Store(ptr: nat, i: nat, v: nat)
      requires Valid() && Live(ptr) && i < PayloadWords(ptr)
      modifies this`mem
      ensures Valid() && ptr + i < |old(mem)| && mem == old(mem)[ptr + i := v]
      ensures Keeps(old(mem), blk, mem, blk, ptr - 1)
    {
      hide Tagged, Tiled, Listed, Coalesced, Keeps;
      BlockFacts(mem, lo, brk, end, blk, lists, NULL, ptr - 1);
      mem := mem[ptr + i := v];
      StoreShape(old(mem), lo, brk, end, blk, lists, ptr - 1, ptr + i, v, mem);
    }

    /** `kmalloc_memcpy` between two payloads. */
    method CopyWords(dst: nat, src: nat, n: nat)
      requires Valid() && Live(dst) && Live(src) && dst != src
      requires n <= PayloadWords(dst) && n <= PayloadWords(src)
      modifies this`mem
      ensures Valid() && |mem| == |old(mem)| && n <= |Contents(dst)| && n <= |old(Contents(src))|
      ensures Contents(dst)[..n] == old(Contents(src))[..n]
      ensures Keeps(old(mem), blk, mem, blk, dst - 1)
    {
      hide Tagged, Tiled, Listed, Coalesced, Keeps, SamePayload, Payload, NoLoose;
      BlockFacts(mem, lo, brk, end, blk, lists, NULL, dst - 1);
      BlockFacts(mem, lo, brk, end, blk, lists, NULL, src - 1);
      KeepsSelfBut(mem, blk, dst - 1);
      assert Copied(mem, src, mem, dst, 0);
      for i := 0 to n
        invariant Valid() && |mem| == |old(mem)|
        invariant Keeps(old(mem), blk, mem, blk, dst - 1)
        invariant Copied(old(mem), src, mem, dst, i)
      {
        ghost var m := mem;
        KeepsPayload(old(mem), blk, mem, blk, dst - 1, src - 1, src + i);
        Store(dst, i, mem[src + i]);
        KeepsTransIn(old(mem), lo, brk, blk, m, blk, mem, blk, dst - 1);
        CopyStep(old(mem), src, m, dst, i, mem);
      }
      CopyDone(old(mem), src, blk[src - 1].words, mem, dst, blk[dst - 1].words, n);
    }

    /** The middle path of `krealloc`: take in the free block that follows. */
    method GrowInPlace(ptr: nat, nextWords: nat)
      requires Valid() && Live(ptr)
      requires Next(blk, ptr - 1) in blk && blk[Next(blk, ptr - 1)] == Block(nextWords, Free)
      modifies this`mem, this`blk, this`lists
      ensures Valid() && Live(ptr) && PayloadWords(ptr) == old(PayloadWords(ptr)) + nextWords
      ensures old(Contents(ptr)) <= Contents(ptr)
      ensures Keeps(old(mem), old(blk), mem, blk, ptr - 1) && OnlyNewUsed(old(blk), blk, ptr - 1)
    {
      hide Tagged, Tiled, Listed, Coalesced, Keeps, SamePayload, Payload;
      BlockFacts(mem, lo, brk, end, blk, lists, NULL, ptr - 1);
      var words := TagWords(mem[ptr - 1]);
      ghost var q := Next(blk, ptr - 1);
      BlockFacts(mem, lo, brk, end, blk, lists, NULL, q);
      RemoveFree(ptr + words, nextWords);
      ghost var m1, blk1 := mem, blk;
      mem := mem[ptr - 1 := Tag(words + nextWords, true)];
      mem := mem[ptr - 1 + words + nextWords - 1 := Tag(words + nextWords, true)];
      blk := Merge(blk, ptr - 1, q, Used);
      MergeShape(m1, lo, brk, end, blk1, lists, ptr - 1, q, Used, mem, blk);
      SamePayloadTrans(old(mem), old(blk), m1, blk1, mem, ptr - 1);
      KeepsLength(old(mem), old(blk), m1, blk1, NULL);
      BlockFacts(mem, lo, brk, end, blk, lists, NULL, ptr - 1);
      PayloadGrows(old(mem), mem, ptr - 1, words, words + nextWords);
      KeepsFewer(old(mem), old(blk), m1, blk1, ptr - 1);
      KeepsTransIn(old(mem), lo, brk, old(blk), m1, blk1, mem, blk, ptr - 1);
    }

    /** `krealloc`: the old contents survive on all three paths, and the fallback copies the whole
        old payload. */
    method Realloc(ptr: nat, size: nat) returns (r: nat)
      requires Valid() && (ptr == NULL || Live(ptr))
      modifies this
      ensures Valid() && |mem| == |old(mem)| && |old(lists)| == CLASSES
      ensures ptr == NULL ==> (r == NULL <==> Refuses(old(blk), old(lists), size, old(brk), end))
      ensures ptr != NULL && size == 0 ==> r == NULL
      ensures ptr != NULL && size != 0 ==>
                (r == NULL <==> !ServesInPlace(old(blk), ptr - 1, size) && Refuses(old(blk), old(lists), size, old(brk), end))
      ensures r != NULL && r != ptr ==> !(r - 1 in old(blk) && old(blk)[r - 1].status == Used)
      ensures ptr == NULL && r != NULL ==> Keeps(old(mem), old(blk), mem, blk, NULL)
      ensures r != NULL ==> size != 0 && Live(r) && size <= 8 * PayloadWords(r) && OnlyNewUsed(old(blk), blk, r - 1)
      ensures r == NULL && (ptr == NULL || size != 0) ==>
                mem == old(mem) && brk == old(brk) && blk == old(blk) && lists == old(lists)
      ensures ptr != NULL && (r != NULL || size == 0) ==> Keeps(old(mem), old(blk), mem, blk, ptr - 1)
      ensures ptr != NULL && r != ptr && (r != NULL || size == 0) ==> !(ptr - 1 in blk && blk[ptr - 1].status == Used)
      ensures ptr != NULL && size != 0 ==> (r == ptr <==> ServesInPlace(old(blk), ptr - 1, size))
      ensures ptr != NULL && r != NULL ==> old(Contents(ptr)) <= Contents(r)
      ensures ptr != NULL && size != 0 && 2 * ((size + 31) / 16) <= old(blk)[ptr - 1].words ==> mem == old(mem) && blk == old(blk) && lists == old(lists)
      ensures if r == NULL || r == ptr then brk == old(brk) else Grows(old(blk), old(lists), size, old(brk), brk)
    {
      hide Tagged, Tiled, Listed, Coalesced, Keeps, Findable, GrowWords, Payload, Grows;
      if ptr == NULL {
        r := Alloc(size);
        KeepsLength(old(mem), old(blk), mem, blk, NULL);
        return;
      }
      BlockFacts(mem, lo, brk, end, blk, lists, NULL, ptr - 1);
      if size == 0 {
        Release(ptr);
        KeepsLength(old(mem), old(blk), mem, blk, ptr - 1);
        return NULL;
      }
      NextFacts(mem, lo, brk, end, blk, lists, ptr - 1);
      KeepsSelfBut(mem, blk, ptr - 1);
      var oldWords, need := TagWords(mem[ptr - 1]), NeedWords(size);
      if need <= oldWords {
        return ptr;
      }
      var nextTag := mem[ptr - 1 + oldWords];
      if !TagUsed(nextTag) {
        BlockFacts(mem, lo, brk, end, blk, lists, NULL, ptr - 1 + oldWords);
        var nextWords := TagWords(nextTag);
        if need <= oldWords + nextWords {
          GrowInPlace(ptr, nextWords);
          KeepsLength(old(mem), old(blk), mem, blk, ptr - 1);
          return ptr;
        }
      }
      r := Relocate(ptr, size, oldWords);
    }

    /** The fallback of `krealloc`: allocate, copy, free. */
    method Relocate(ptr: nat, size: nat, oldWords: nat) returns (r: nat)
      requires Valid() && Live(ptr) && oldWords == blk[ptr - 1].words < NeedWords(size)
      modifies this
      ensures Valid() && |mem| == |old(mem)| && r != ptr && |old(lists)| == CLASSES
      ensures r == NULL <==> Refuses(old(blk), old(lists), size, old(brk), end)
      ensures r != NULL ==> !(r - 1 in old(blk) && old(blk)[r - 1].status == Used)
      ensures r == NULL ==> mem == old(mem) && brk == old(brk) && blk == old(blk) && lists == old(lists)
      ensures r != NULL ==> Live(r) && size <= 8 * PayloadWords(r) && OnlyNewUsed(old(blk), blk, r - 1)
      ensures r != NULL ==> Keeps(old(mem), old(blk), mem, blk, ptr - 1)
      ensures r != NULL ==> !(ptr - 1 in blk && blk[ptr - 1].status == Used)
      ensures r != NULL ==> old(Contents(ptr)) <= Contents(r) && Grows(old(blk), old(lists), size, old(brk), brk)
    {
      hide Tagged, Tiled, Listed, Coalesced, Keeps, Refuses, Grows, SamePayload, Payload, NeedWords;
      BlockFacts(mem, lo, brk, end, blk, lists, NULL, ptr - 1);
      NeedsMore(size, oldWords);
      r := Alloc(size);
      if r == NULL {
        return;
      }
      ghost var m1, blk1 := mem, blk;
      KeepsContents(old(mem), old(blk), m1, blk1, NULL, ptr - 1);
      var copyBytes := 8 * (oldWords - 2);
      if size < copyBytes {
        copyBytes := size;
      }
      PayloadLength(old(mem), ptr - 1, oldWords);
      CopyWords(r, ptr, copyBytes / 8);
      ghost var m2 := mem;
      Release(ptr);
      KeepsContents(m2, blk1, mem, blk, ptr - 1, r - 1);
      RelocateKeeps(old(mem), lo, old(brk), old(blk), m1, blk1, m2, mem, blk, ptr - 1, r - 1);
    }
  }

  /** A block that is too small for a request holds no more than that. */
  lemma NeedsMore(size: nat, words: nat)
    requires words < NeedWords(size) && words % 2 == 0
    ensures 8 * (words - 2) <= size
  {
  }
}
