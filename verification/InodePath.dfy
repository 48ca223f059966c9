/** Where the i-th block of a file hangs in its inode's pointer tree (`kernel/fs/inodes.c`).

`s` is the number of block numbers in a block.  Blocks 0..11 sit in the inode itself; then come `s` blocks
behind the single pointer, `s * s` behind the double and `s * s * s` behind the triple one. */
module InodePath {
  import opened Arithmetic

  const DIRECT: nat := 12
  const SLOTS: nat := 15

  /** A block of the tree, by position: data blocks `N`, pointer blocks `P`. */
  datatype Node =
    | N0(i: nat)                       // direct data block
    | P1 | N1(c: nat)                  // single pointer block, its data blocks
    | P2 | P2S(b: nat) | N2(b: nat, c: nat)
    | P3 | P3D(a: nat) | P3S(a: nat, b: nat) | N3(a: nat, b: nat, c: nat)

  /** A data position: the digits of an index, by level. */
  datatype Pos = Pos(level: nat, a: nat, b: nat, c: nat)

  /** `BLOCKS_IN_DOUBLE_PTR` and `BLOCKS_IN_TRIPLE_PTR`. */
  function Sq(s: nat): nat { s * s }
  function Cube(s: nat): nat { Sq(s) * s }

  function Capacity(s: nat): nat {
    DIRECT + s + Sq(s) + Cube(s)
  }

  /** 12 blocks in the inode, and those behind the three pointers. */
  lemma CapacityIs(s: nat)
    ensures Capacity(s) == 12 + s + s * s + s * s * s
  {
  }

  /** The decoding used by append and by remove (inodes.c:576-681, 1041-1202). */
  ghost function Path(s: nat, i: nat): Pos
    requires 0 < s
  {
    if i < DIRECT then Pos(0, 0, 0, i)
    else if i < DIRECT + s then Pos(1, 0, 0, i - DIRECT)
    else if i < DIRECT + s + Sq(s) then
      var k := i - DIRECT - s;
      Pos(2, 0, Quot(k, s), Rem(k, s))
    else
      assert 0 < Sq(s);
      var t := i - DIRECT - s - Sq(s);
      Pos(3, Quot(t, Sq(s)), Quot(Rem(t, Sq(s)), s), Rem(Rem(t, Sq(s)), s))
  }

  ghost function NodeAt(p: Pos): Node {
    if p.level == 0 then N0(p.c)
    else if p.level == 1 then N1(p.c)
    else if p.level == 2 then N2(p.b, p.c)
    else N3(p.a, p.b, p.c)
  }

  ghost function DataNode(s: nat, i: nat): Node
    requires 0 < s
  {
    NodeAt(Path(s, i))
  }

  /** The digits are in range; `a == s` only at the position past the last block. */
  ghost predicate InRange(s: nat, p: Pos) {
    match p.level
    case 0 => p.a == p.b == 0 && p.c < DIRECT
    case 1 => p.a == p.b == 0 && p.c < s
    case 2 => p.a == 0 && p.b < s && p.c < s
    case 3 => p.b < s && p.c < s && (p.a < s || (p.a == s && p.b == p.c == 0))
    case _ => false
  }

  /** The next position, by carrying. */
  ghost function Succ(s: nat, p: Pos): Pos {
    match p.level
    case 0 => if p.c + 1 < DIRECT then p.(c := p.c + 1) else Pos(1, 0, 0, 0)
    case 1 => if p.c + 1 < s then p.(c := p.c + 1) else Pos(2, 0, 0, 0)
    case 2 =>
      if p.c + 1 < s then p.(c := p.c + 1)
      else if p.b + 1 < s then Pos(2, 0, p.b + 1, 0)
      else Pos(3, 0, 0, 0)
    case _ =>
      if p.c + 1 < s then p.(c := p.c + 1)
      else if p.b + 1 < s then Pos(3, p.a, p.b + 1, 0)
      else Pos(3, p.a + 1, 0, 0)
  }

  // ---------------------------------------------------------------------------
  // Arithmetic of the digits
  // ---------------------------------------------------------------------------

  lemma SqLarge(s: nat)
    requires 1 < s
    ensures s < Sq(s)
  {
    MulOrder(1, s, s);
  }

  /** Two digits base `s`: range below `Sq(s)`, and the carry. */
  lemma Digits2(k: nat, s: nat)
    requires 1 < s && k < Sq(s)
    ensures Quot(k, s) < s && Rem(k, s) < s
    ensures Rem(k, s) + 1 == s && Quot(k, s) + 1 == s <==> k + 1 == Sq(s)
  {
    DivRange(k, s, s);
    var q, r := k / s, k % s;
    assert k == q * s + r;
    if r + 1 == s && q + 1 == s {
      assert k + 1 == (q + 1) * s;
    }
    if k + 1 == s * s {
      DivUnique(s, s - 1, s - 1);
      assert (s - 1) * s + (s - 1) == k;
    }
  }

  lemma PathInRange(s: nat, i: nat)
    requires 1 < s && i <= Capacity(s)
    ensures InRange(s, Path(s, i))
  {
    if DIRECT + s <= i < DIRECT + s + Sq(s) {
      hide Quot, Rem, Sq, Cube;
      Digits2(i - DIRECT - s, s);
    } else if DIRECT + s + Sq(s) <= i {
      var t := i - DIRECT - s - Sq(s);
      assert 0 < Sq(s) && Cube(s) == s * Sq(s);
      hide Quot, Rem, Sq;
      if t == Cube(s) {
        DivExact(Sq(s), s);
        assert s * Sq(s) == t;
        hide Cube;
        DivSmall(0, s);
      } else {
        DivRange(t, Sq(s), s);
        hide Cube;
        Digits2(Rem(t, Sq(s)), s);
      }
    }
  }

  /** Path follows Succ: the digits of i + 1 are those of i with a carry. */
  lemma PathSucc(s: nat, i: nat)
    requires 1 < s && i < Capacity(s)
    ensures Path(s, i + 1) == Succ(s, Path(s, i))
  {
    hide Quot, Rem, Sq, Cube;
    SqLarge(s);
    if i + 1 < DIRECT + s {
    } else if i + 1 == DIRECT + s {
      DivSmall(0, s);
    } else if i < DIRECT + s + Sq(s) {
      var k := i - DIRECT - s;
      DivSucc(k, s);
      Digits2(k, s);
      if k + 1 == Sq(s) {
        DivSmall(0, Sq(s));
        DivSmall(0, s);
      }
    } else {
      PathSuccTriple(s, i);
    }
  }

  lemma PathSuccTriple(s: nat, i: nat)
    requires 1 < s && DIRECT + s + Sq(s) <= i < Capacity(s)
    ensures Path(s, i + 1) == Succ(s, Path(s, i))
  {
    hide Quot, Rem, Sq, Cube;
    SqLarge(s);
    var t := i - DIRECT - s - Sq(s);
    DivSucc(t, Sq(s));
    Digits2(Rem(t, Sq(s)), s);
    DivSucc(Rem(t, Sq(s)), s);
    DivSmall(0, s);
  }

  // ---------------------------------------------------------------------------
  // Which nodes a file of n blocks has
  // ---------------------------------------------------------------------------

  /** `x` is part of the tree of a file whose next block would go to `p`.  Files of at most 15 blocks
      have no pointer block at all. */
  ghost predicate LiveAt(s: nat, p: Pos, pointers: bool, x: Node) {
    match x
    case N0(i) => i < DIRECT && (0 < p.level || i < p.c)
    case P1 => pointers
    case N1(c) => c < s && (1 < p.level || (p.level == 1 && c < p.c))
    case P2 => 2 < p.level || (p.level == 2 && (0 < p.b || 0 < p.c))
    case P2S(b) => b < s && (2 < p.level || (p.level == 2 && (b < p.b || (b == p.b && 0 < p.c))))
    case N2(b, c) => b < s && c < s && (2 < p.level || (p.level == 2 && (b < p.b || (b == p.b && c < p.c))))
    case P3 => p.level == 3 && (0 < p.a || 0 < p.b || 0 < p.c)
    case P3D(a) => a < s && p.level == 3 && (a < p.a || (a == p.a && (0 < p.b || 0 < p.c)))
    case P3S(a, b) =>
      a < s && b < s && p.level == 3 && (a < p.a || (a == p.a && (b < p.b || (b == p.b && 0 < p.c))))
    case N3(a, b, c) =>
      && a < s && b < s && c < s && p.level == 3
      && (a < p.a || (a == p.a && (b < p.b || (b == p.b && c < p.c))))
  }

  ghost predicate Live(s: nat, n: nat, x: Node)
    requires 0 < s
  {
    LiveAt(s, Path(s, n), SLOTS < n, x)
  }

  /** The nodes that append adds to a file of `n` blocks: the data block and every pointer block that
      it is the first to hang from. */
  ghost predicate IsNew(s: nat, n: nat, x: Node)
    requires 0 < s
  {
    var p := Path(s, n);
    || x == NodeAt(p)
    || (n == SLOTS && x == P1)
    || (p.level == 2 && p.c == 0 && (x == P2S(p.b) || (p.b == 0 && x == P2)))
    || (p.level == 3 && p.c == 0 && (x == P3S(p.a, p.b) || (p.b == 0 && (x == P3D(p.a) || (p.a == 0 && x == P3)))))
  }

  /** Appending one block adds exactly the new nodes. */
  lemma LiveSucc(s: nat, n: nat, x: Node)
    requires 4 <= s && n < Capacity(s)
    ensures Live(s, n + 1, x) <==> Live(s, n, x) || IsNew(s, n, x)
    ensures IsNew(s, n, x) ==> !Live(s, n, x)
  {
    hide Path, Capacity;
    PathInRange(s, n);
    PathInRange(s, n + 1);
    PathSucc(s, n);
    SmallPaths(s, n);
    LastPos(s, n);
  }

  lemma SmallPaths(s: nat, n: nat)
    requires 4 <= s
    ensures n < DIRECT <==> Path(s, n).level == 0
    ensures DIRECT <= n < DIRECT + s <==> Path(s, n).level == 1
    ensures n < DIRECT ==> Path(s, n).c == n
    ensures DIRECT <= n < DIRECT + s ==> Path(s, n).c == n - DIRECT
  {
    hide Quot, Rem, Sq, Cube;
    SqLarge(s);
  }

  /** Short of its capacity a file's next position has a top digit in range. */
  lemma LastPos(s: nat, n: nat)
    requires 4 <= s && n < Capacity(s)
    ensures Path(s, n).a < s
  {
    if DIRECT + s + Sq(s) <= n {
      assert 0 < Sq(s) && Cube(s) == s * Sq(s);
      DivRange(n - DIRECT - s - Sq(s), Sq(s), s);
    }
  }

  lemma {:induction false} DataLive(s: nat, n: nat, i: nat)
    requires 4 <= s && i < n <= Capacity(s)
    ensures Live(s, n, DataNode(s, i))
    decreases n
  {
    hide Live, IsNew, Path, NodeAt, Capacity;
    LiveSucc(s, n - 1, DataNode(s, i));
    if i < n - 1 {
      DataLive(s, n - 1, i);
    } else {
      DataIsNew(s, i);
    }
  }

  lemma DataIsNew(s: nat, i: nat)
    requires 0 < s
    ensures IsNew(s, i, DataNode(s, i))
  {
  }

  /** Different indices sit at different nodes. */
  lemma DataInjective(s: nat, i: nat, j: nat)
    requires 4 <= s && i < j < Capacity(s)
    ensures DataNode(s, i) != DataNode(s, j)
  {
    hide Live, IsNew, Path, NodeAt, Capacity;
    DataLive(s, j, i);
    DataIsNew(s, j);
    LiveSucc(s, j, DataNode(s, j));
  }
}
