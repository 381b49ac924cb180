// The integers that a double holds (IEEE 754, binary64), and what a conversion of a
// wide integer to double may make of it.
module Doubles {
  const SIGNIFICAND: int := 0x20_0000_0000_0000

  // At most 53 significant bits.
  predicate Fits53(n: nat) { n < SIGNIFICAND || (n % 2 == 0 && Fits53(n / 2)) }

  // A double holds the integer exactly.
  predicate IsDouble(i: int) { Fits53(if i < 0 then -i else i) }

  function Scaled(m: nat, k: nat): nat { if k == 0 then m else 2 * Scaled(m, k - 1) }

  // 53 bits, times a power of two.
  lemma {:induction false} DoublesAre(n: nat)
    ensures Fits53(n) <==> exists m: nat, k: nat :: m < 0x20_0000_0000_0000 && n == Scaled(m, k)
    decreases n
  {
    if n < SIGNIFICAND {
      assert n == Scaled(n, 0);
      assert exists m: nat, k: nat :: m < 0x20_0000_0000_0000 && n == Scaled(m, k);
    } else {
      if Fits53(n) {
        DoublesAre(n / 2);
        var m: nat, k: nat :| m < SIGNIFICAND && n / 2 == Scaled(m, k);
        assert n == Scaled(m, k + 1);
      }
      if m: nat, k: nat :| m < SIGNIFICAND && n == Scaled(m, k) {
        DoublesAre(n / 2);
        assert k > 0 && n == 2 * Scaled(m, k - 1);
        assert n / 2 == Scaled(m, k - 1) && n % 2 == 0;
        assert exists i: nat, j: nat :: i < 0x20_0000_0000_0000 && n / 2 == Scaled(i, j);
      }
    }
  }

  // The conversion picks a double, keeps what is one and never reverses an order;
  // which neighbour it picks C++ leaves open.
  ghost predicate Rounding(nearest: int -> int) {
    && (forall i :: IsDouble(nearest(i)) && (IsDouble(i) ==> nearest(i) == i))
    && (forall i, j :: i <= j ==> nearest(i) <= nearest(j))
  }

  lemma RoundingKeeps(nearest: int -> int, i: int)
    requires Rounding(nearest)
    ensures nearest(i) == i <==> IsDouble(i)
  {
    hide IsDouble;
  }

  lemma RoundingStays(nearest: int -> int, low: int, i: int, high: int)
    requires Rounding(nearest) && IsDouble(low) && low <= i
    ensures low <= nearest(i)
    ensures i <= high && IsDouble(high) ==> nearest(i) <= high
  {
    hide IsDouble;
  }

  lemma Even(n: nat)
    requires Fits53(n)
    ensures Fits53(2 * n)
  {
    assert (2 * n) / 2 == n && (2 * n) % 2 == 0;
  }

  // ---------------------------------------------------------------- there is such a conversion

  // Rounding towards zero.
  function Down(n: nat): (d: nat)
    ensures d <= n && Fits53(d) && (Fits53(n) ==> d == n)
  {
    if n < SIGNIFICAND then n
    else
      Even(Down(n / 2));
      2 * Down(n / 2)
  }

  function TowardsZero(i: int): int {
    var d: int := Down(if i < 0 then -i else i);
    if i < 0 then -d else d
  }

  lemma {:induction false} DownGrows(n: nat, m: nat)
    requires n <= m
    ensures Down(n) <= Down(m)
    decreases m
  {
    if m >= SIGNIFICAND { DownGrows(if n < SIGNIFICAND then SIGNIFICAND / 2 else n / 2, m / 2); }
  }

  lemma RoundingExists()
    ensures Rounding(TowardsZero)
  {
    forall i, j | i <= j ensures TowardsZero(i) <= TowardsZero(j) {
      if i >= 0 { DownGrows(i, j); } else if j < 0 { DownGrows(-j, -i); }
    }
  }
}
