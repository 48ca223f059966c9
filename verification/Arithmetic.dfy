/** Products, quotients and remainders of naturals. */
module Arithmetic {

  function Quot(k: nat, d: nat): nat requires 0 < d { k / d }
  function Rem(k: nat, d: nat): nat requires 0 < d { k % d }

  lemma MulOrder(x: nat, y: nat, d: nat)
    ensures x < y ==> x * d + d <= y * d
    ensures y < x ==> y * d + d <= x * d
  {
    if x < y {
      assert (x + 1) * d <= y * d;
    } else if y < x {
      assert (y + 1) * d <= x * d;
    }
  }

  lemma DivUnique(d: nat, q: nat, r: nat)
    requires 0 < d && r < d
    ensures Quot(q * d + r, d) == q && Rem(q * d + r, d) == r
  {
    var k := q * d + r;
    assert k == k / d * d + k % d;
    MulOrder(k / d, q, d);
  }

  lemma DivRange(k: nat, d: nat, e: nat)
    requires 0 < d && k < e * d
    ensures Quot(k, d) < e && Rem(k, d) < d
  {
    assert k == k / d * d + k % d;
    MulOrder(k / d, e, d);
  }

  lemma DivSmall(k: nat, d: nat)
    requires k < d
    ensures Quot(k, d) == 0 && Rem(k, d) == k
  {
    DivUnique(d, 0, k);
  }

  lemma DivExact(d: nat, q: nat)
    requires 0 < d
    ensures Quot(q * d, d) == q && Rem(q * d, d) == 0
  {
    DivUnique(d, q, 0);
  }

  /** Incrementing `k` carries into the quotient exactly when the remainder is at its top. */
  lemma DivSucc(k: nat, d: nat)
    requires 0 < d
    ensures Rem(k, d) < d
    ensures if Rem(k, d) + 1 < d then Quot(k + 1, d) == Quot(k, d) && Rem(k + 1, d) == Rem(k, d) + 1
            else Quot(k + 1, d) == Quot(k, d) + 1 && Rem(k + 1, d) == 0
  {
    var q, r := k / d, k % d;
    assert k == q * d + r;
    if r + 1 < d {
      DivUnique(d, q, r + 1);
    } else {
      assert k + 1 == (q + 1) * d;
      DivUnique(d, q + 1, 0);
    }
  }

  /** Dividing twice is dividing by the product. */
  lemma DivDiv(a: nat, b: nat, c: nat)
    requires 0 < b && 0 < c
    ensures 0 < b * c && Quot(Quot(a, b), c) == Quot(a, b * c)
  {
    var q: nat, r: nat := a / b, a % b;
    var q': nat, r': nat := q / c, q % c;
    DivParts(a, b, c, q, r, q', r');
    DivUnique(b * c, q', r' * b + r);
  }

  lemma DivParts(a: nat, b: nat, c: nat, q: nat, r: nat, q': nat, r': nat)
    requires a == q * b + r && q == q' * c + r' && r < b && r' < c
    ensures 0 < b * c && r' * b + r < b * c && a == q' * (b * c) + (r' * b + r)
  {
    MulOrder(r', c, b);
    assert (q' * c + r') * b == q' * (b * c) + r' * b;
  }
}
