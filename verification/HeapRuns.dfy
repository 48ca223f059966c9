/** The heap as its users see it: over any run of `kmalloc`, `kfree`, `krealloc` and stores, a set of disjoint arrays, each
of which holds what its owner put there until it is freed. */
module HeapRuns {
  import opened Common
  import opened HeapLayout
  import opened Heap

  /** Pointers are payload addresses. */
  datatype Op = Malloc(size: nat) | Free(ptr: nat) | Resize(ptr: nat, size: nat) | Poke(ptr: nat, i: nat, w: nat)

  datatype Snap = Snap(lo: nat, end: nat, mem: seq<nat>, brk: nat, blk: Blocks, lists: seq<seq<nat>>)

  ghost function Now(h: Kmalloc): Snap
    reads h
  {
    Snap(h.lo, h.end, h.mem, h.brk, h.blk, h.lists)
  }

  ghost predicate Sound(s: Snap) {
    Shape(s.mem, s.lo, s.brk, s.end, s.blk, s.lists, NULL) && NoLoose(s.blk)
  }

  /** The words of each allocated block, by the address of its header, which is just below the pointer. */
  type Arrays = map<nat, seq<nat>>

  ghost function Held(mem: seq<nat>, blk: Blocks, base: nat): Arrays {
    map p | p in blk && blk[p].status == Used && p != base :: Payload(mem, p, blk[p].words)
  }

  ghost function ArraysOf(s: Snap): Arrays {
    Held(s.mem, s.blk, s.lo + 6)
  }

  ghost function Stored(words: seq<nat>, i: nat, w: nat): seq<nat>
    requires i < |words|
  {
    words[i := w]
  }

  ghost predicate Owned(a: Arrays, ptr: nat) {
    0 < ptr && ptr - 1 in a
  }

  /** The request gets NULL. */
  ghost predicate NoRoom(s: Snap, size: nat) {
    |s.lists| == CLASSES && Refuses(s.blk, s.lists, size, s.brk, s.end)
  }

  /** A new array of at least `size` bytes. */
  ghost predicate Gains(a: Arrays, r: nat, size: nat, a': Arrays) {
    0 < r && r - 1 !in a && r - 1 in a' && size <= 8 * |a'[r - 1]| && a' == a[r - 1 := a'[r - 1]]
  }

  /** The array at `ptr` is at `r` now, with its words at the start and room for `size` bytes. */
  ghost predicate Moves(a: Arrays, ptr: nat, r: nat, size: nat, a': Arrays) {
    && Owned(a, ptr) && Owned(a', r) && (r != ptr ==> r - 1 !in a)
    && a[ptr - 1] <= a'[r - 1] && size <= 8 * |a'[r - 1]| && a' == (a - {ptr - 1})[r - 1 := a'[r - 1]]
  }

  /** The break after a request: it moves only if there is nothing to be found, by 512 words or by the block. */
  ghost predicate Breaks(s: Snap, size: nat, same: bool, s': Snap) {
    if same then s'.brk == s.brk else |s.lists| == CLASSES && Grows(s.blk, s.lists, size, s.brk, s'.brk)
  }

  ghost predicate Malloced(s: Snap, size: nat, r: nat, s': Snap) {
    && (r == NULL <==> NoRoom(s, size))
    && (if r == NULL then ArraysOf(s') == ArraysOf(s) else Gains(ArraysOf(s), r, size, ArraysOf(s')))
    && Breaks(s, size, r == NULL, s')
  }

  ghost predicate Resized(s: Snap, ptr: nat, size: nat, r: nat, s': Snap)
    requires 0 < ptr
  {
    var a, a', fits := ArraysOf(s), ArraysOf(s'), ServesInPlace(s.blk, ptr - 1, size);
    && (r == NULL <==> size == 0 || (!fits && NoRoom(s, size)))
    && (if size == 0 then a' == a - {ptr - 1} else if r == NULL then a' == a else Moves(a, ptr, r, size, a') && (r == ptr <==> fits))
    && Breaks(s, size, r == NULL || r == ptr, s')
  }

  /** What an operation does to the arrays; `r` is the pointer that it returns.  On a pointer that is not live, nothing. */
  ghost predicate Step(s: Snap, op: Op, r: nat, s': Snap) {
    var a, a' := ArraysOf(s), ArraysOf(s');
    match op
    case Malloc(size) => Malloced(s, size, r, s')
    case Free(ptr) => s'.brk == s.brk && a' == if Owned(a, ptr) then a - {ptr - 1} else a
    case Resize(ptr, size) =>
      if ptr == NULL then Malloced(s, size, r, s') else if Owned(a, ptr) then Resized(s, ptr, size, r, s') else s'.brk == s.brk && a' == a
    case Poke(ptr, i, w) => s'.brk == s.brk && a' == if Owned(a, ptr) && i < |a[ptr - 1]| then a[ptr - 1 := Stored(a[ptr - 1], i, w)] else a
  }

  ghost predicate Trace(states: seq<Snap>, ops: seq<Op>, outs: seq<nat>) {
    && |states| == |ops| + 1 && |outs| == |ops|
    && (forall i :: 0 <= i <= |ops| ==> Sound(states[i]))
    && (forall i :: 0 <= i < |ops| ==> Step(states[i], ops[i], outs[i], states[i + 1]))
  }

  // ---------------------------------------------------------------------------
  // From blocks to arrays
  // ---------------------------------------------------------------------------

  /** The arrays of blocks that are as they were. */
  lemma SameAt(m: seq<nat>, blk: Blocks, m': seq<nat>, blk': Blocks, base: nat, but: nat)
    requires Keeps(m, blk, m', blk', but)
    ensures forall q :: q in Held(m, blk, base) && q != but ==> q in Held(m', blk', base) && Held(m', blk', base)[q] == Held(m, blk, base)[q]
  {
    hide Payload, SamePayload;
    forall q | q in Held(m, blk, base) && q != but
      ensures q in Held(m', blk', base) && Held(m', blk', base)[q] == Held(m, blk, base)[q]
    {
      KeepsContents(m, blk, m', blk', but, q);
    }
  }

  /** Only block `p` is newly allocated. */
  lemma ArraysGain(m: seq<nat>, blk: Blocks, m': seq<nat>, blk': Blocks, base: nat, p: nat)
    requires Keeps(m, blk, m', blk', NULL) && OnlyNewUsed(blk, blk', p) && NULL !in blk
    requires p in blk' && blk'[p].status == Used && p != base && !(p in blk && blk[p].status == Used)
    ensures var a, a' := Held(m, blk, base), Held(m', blk', base); p !in a && p in a' && a' == a[p := a'[p]]
  {
    hide Payload, Keeps;
    SameAt(m, blk, m', blk', base, NULL);
  }

  /** Block `p` is given up. */
  lemma ArraysLose(m: seq<nat>, blk: Blocks, m': seq<nat>, blk': Blocks, base: nat, p: nat)
    requires Keeps(m, blk, m', blk', p) && NoNewUsed(blk, blk') && !(p in blk' && blk'[p].status == Used)
    ensures Held(m', blk', base) == Held(m, blk, base) - {p}
  {
    hide Payload, Keeps;
    SameAt(m, blk, m', blk', base, p);
  }

  /** Block `p` is given up for block `q`, which may be `p` itself. */
  lemma ArraysMove(m: seq<nat>, blk: Blocks, m': seq<nat>, blk': Blocks, base: nat, p: nat, q: nat)
    requires Keeps(m, blk, m', blk', p) && OnlyNewUsed(blk, blk', q) && q in blk' && blk'[q].status == Used && q != base
    requires q != p ==> !(p in blk' && blk'[p].status == Used) && !(q in blk && blk[q].status == Used)
    ensures var a, a' := Held(m, blk, base), Held(m', blk', base); q in a' && (q != p ==> q !in a) && a' == (a - {p})[q := a'[q]]
  {
    hide Payload, Keeps;
    SameAt(m, blk, m', blk', base, p);
  }

  /** A store into block `p`. */
  lemma ArraysPoke(m: seq<nat>, blk: Blocks, m': seq<nat>, base: nat, p: nat, i: nat, w: nat)
    requires Keeps(m, blk, m', blk, p) && p in Held(m, blk, base) && i < |Held(m, blk, base)[p]|
    requires p + 1 + i < |m| && m' == m[p + 1 + i := w]
    ensures var a := Held(m, blk, base); Held(m', blk, base) == a[p := Stored(a[p], i, w)]
  {
    hide Keeps;
    SameAt(m, blk, m', blk, base, p);
    assert Payload(m', p, blk[p].words) == Payload(m, p, blk[p].words)[i := w];
  }

  /** What a pointer is to the heap, and to the arrays. */
  lemma OwnedLive(h: Kmalloc, ptr: nat)
    requires h.Valid()
    ensures Owned(ArraysOf(Now(h)), ptr) <==> h.Live(ptr)
    ensures h.Live(ptr) ==> ArraysOf(Now(h))[ptr - 1] == h.Contents(ptr) && |h.Contents(ptr)| == h.PayloadWords(ptr)
    ensures NULL !in h.blk && |h.lists| == CLASSES
  {
    hide Listed, Tagged, Coalesced, Chained, Disjoint;
    BlockFacts(h.mem, h.lo, h.brk, h.end, h.blk, h.lists, NULL, h.lo + 6);
    if h.Live(ptr) {
      BlockFacts(h.mem, h.lo, h.brk, h.end, h.blk, h.lists, NULL, ptr - 1);
      PayloadLength(h.mem, ptr - 1, h.blk[ptr - 1].words);
    }
  }

  // ---------------------------------------------------------------------------
  // Runs
  // ---------------------------------------------------------------------------

  method PerformMalloc(h: Kmalloc, size: nat) returns (r: nat)
    requires h.Valid()
    modifies h
    ensures h.Valid() && Malloced(old(Now(h)), size, r, Now(h))
  {
    hide Tagged, Tiled, Listed, Coalesced, Keeps, Refuses, Grows, OnlyNewUsed, Payload, Took, NoLoose, Held;
    OwnedLive(h, 0);
    r := h.Alloc(size);
    if r != NULL {
      OwnedLive(h, r);
      ArraysGain(old(h.mem), old(h.blk), h.mem, h.blk, h.lo + 6, r - 1);
    }
  }

  method PerformFree(h: Kmalloc, ptr: nat)
    requires h.Valid() && h.Live(ptr)
    modifies h
    ensures h.Valid() && ArraysOf(Now(h)) == old(ArraysOf(Now(h))) - {ptr - 1} && h.brk == old(h.brk)
  {
    hide Tagged, Tiled, Listed, Coalesced, Keeps, Payload, Frees, NoLoose, Held, Isolated;
    h.Release(ptr);
    ArraysLose(old(h.mem), old(h.blk), h.mem, h.blk, h.lo + 6, ptr - 1);
  }

  method PerformResize(h: Kmalloc, ptr: nat, size: nat) returns (r: nat)
    requires h.Valid() && h.Live(ptr)
    modifies h
    ensures h.Valid() && Resized(old(Now(h)), ptr, size, r, Now(h))
  {
    hide Tagged, Tiled, Listed, Coalesced, Keeps, Refuses, Grows, OnlyNewUsed, Payload, NoLoose, Held, ServesInPlace;
    OwnedLive(h, ptr);
    if size == 0 {
      PerformFree(h, ptr);
      return NULL;
    }
    r := h.Realloc(ptr, size);
    if r != NULL {
      OwnedLive(h, r);
      ArraysMove(old(h.mem), old(h.blk), h.mem, h.blk, h.lo + 6, ptr - 1, r - 1);
    }
  }

  method PerformPoke(h: Kmalloc, ptr: nat, i: nat, w: nat)
    requires h.Valid() && h.Live(ptr) && i < h.PayloadWords(ptr)
    modifies h
    ensures h.Valid() && Step(old(Now(h)), Poke(ptr, i, w), NULL, Now(h))
  {
    hide Tagged, Tiled, Listed, Coalesced, Keeps, Payload, NoLoose, Held;
    OwnedLive(h, ptr);
    h.Store(ptr, i, w);
    ArraysPoke(old(h.mem), h.blk, h.mem, h.lo + 6, ptr - 1, i, w);
  }

  /** `live` are the pointers that were returned and not given up since. */
  ghost predicate Lists(live: set<nat>, a: Arrays) {
    forall ptr: nat :: ptr in live <==> Owned(a, ptr)
  }

  /** Any operation; on a pointer that is not live, nothing. */
  method Perform(h: Kmalloc, live: set<nat>, op: Op) returns (r: nat, live': set<nat>)
    requires h.Valid() && Lists(live, ArraysOf(Now(h)))
    modifies h
    ensures h.Valid() && Step(old(Now(h)), op, r, Now(h)) && Lists(live', ArraysOf(Now(h)))
  {
    hide Shape, NoLoose, Held, NoRoom, Grows, ServesInPlace;
    r, live' := NULL, live;
    match op
    case Malloc(size) =>
      r := PerformMalloc(h, size);
      live' := if r == NULL then live else live + {r};
    case Free(ptr) =>
      OwnedLive(h, ptr);
      if ptr in live {
        PerformFree(h, ptr);
        live' := live - {ptr};
      }
    case Resize(ptr, size) =>
      OwnedLive(h, ptr);
      if ptr == NULL {
        r := PerformMalloc(h, size);
        live' := if r == NULL then live else live + {r};
      } else if ptr in live {
        r := PerformResize(h, ptr, size);
        live' := if size == 0 then live - {ptr} else if r == NULL then live else live - {ptr} + {r};
      }
    case Poke(ptr, i, w) =>
      OwnedLive(h, ptr);
      if ptr in live {
        var n := Words(h, ptr);
        if i < n {
          PerformPoke(h, ptr, i, w);
        }
      }
  }

  /** The size of an array is in its header. */
  method Words(h: Kmalloc, ptr: nat) returns (n: nat)
    requires h.Valid() && h.Live(ptr)
    ensures n == h.PayloadWords(ptr)
  {
    hide Listed, Tagged, Coalesced, Chained, Disjoint;
    BlockFacts(h.mem, h.lo, h.brk, h.end, h.blk, h.lists, NULL, ptr - 1);
    n := TagWords(h.mem[ptr - 1]) - 2;
  }

  /** Every sequence of operations is a run on disjoint arrays. */
  method RunAll(h: Kmalloc, live: set<nat>, ops: seq<Op>) returns (outs: seq<nat>, live': set<nat>, ghost states: seq<Snap>)
    requires h.Valid() && Lists(live, ArraysOf(Now(h)))
    modifies h
    ensures h.Valid() && Trace(states, ops, outs) && states[0] == old(Now(h)) && states[|ops|] == Now(h)
    ensures Lists(live', ArraysOf(Now(h)))
  {
    hide Shape, NoLoose, Step, ArraysOf, Lists;
    outs, live', states := [], live, [Now(h)];
    for k := 0 to |ops|
      invariant h.Valid() && Trace(states, ops[..k], outs) && states[0] == old(Now(h)) && states[k] == Now(h)
      invariant Lists(live', ArraysOf(Now(h)))
    {
      var r;
      r, live' := Perform(h, live', ops[k]);
      outs, states := outs + [r], states + [Now(h)];
    }
    assert ops[..|ops|] == ops;
  }

  // ---------------------------------------------------------------------------
  // What every run keeps
  // ---------------------------------------------------------------------------

  /** Two arrays share no word, and neither reaches the break. */
  lemma ArraysApart(s: Snap, p: nat, q: nat)
    requires Sound(s) && p in ArraysOf(s) && q in ArraysOf(s) && p < q
    ensures p + 1 + |ArraysOf(s)[p]| < q && q + 1 + |ArraysOf(s)[q]| < s.brk
  {
    hide Listed, Tagged, Coalesced, Chained;
    BlockFacts(s.mem, s.lo, s.brk, s.end, s.blk, s.lists, NULL, p);
    BlockFacts(s.mem, s.lo, s.brk, s.end, s.blk, s.lists, NULL, q);
    PayloadLength(s.mem, p, s.blk[p].words);
    PayloadLength(s.mem, q, s.blk[q].words);
  }

  /** The operation may change or give up the array at `ptr`. */
  ghost predicate Touches(op: Op, ptr: nat) {
    !op.Malloc? && op.ptr == ptr
  }

  /** An array holds the same words through any run whose operations do not name it. */
  lemma {:induction false} Untouched(states: seq<Snap>, ops: seq<Op>, outs: seq<nat>, ptr: nat, n: nat)
    requires Trace(states, ops, outs) && n <= |ops| && Owned(ArraysOf(states[0]), ptr)
    requires forall i :: 0 <= i < n ==> !Touches(ops[i], ptr)
    ensures Owned(ArraysOf(states[n]), ptr) && ArraysOf(states[n])[ptr - 1] == ArraysOf(states[0])[ptr - 1]
  {
    hide Shape, NoLoose, ArraysOf, Step;
    if n > 0 {
      Untouched(states, ops, outs, ptr, n - 1);
      StepKeeps(states[n - 1], ops[n - 1], outs[n - 1], states[n], ptr);
    }
  }

  lemma StepKeeps(s: Snap, op: Op, r: nat, s': Snap, ptr: nat)
    requires Step(s, op, r, s') && Owned(ArraysOf(s), ptr) && !Touches(op, ptr)
    ensures Owned(ArraysOf(s'), ptr) && ArraysOf(s')[ptr - 1] == ArraysOf(s)[ptr - 1]
  {
    hide Held, NoRoom, Breaks, ServesInPlace;
  }
}
