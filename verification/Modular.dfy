/** Positions on a ring of `c` slots, reached by stepping, and their remainder form. */
module Modular {

  lemma ScaleBounds(d: int, c: int)
    requires c > 0
    ensures d >= 1 ==> d * c >= c
    ensures d <= 0 ==> d * c <= 0
    ensures d <= -1 ==> d * c <= -c
  {
    if d >= 1 {
      assert (d - 1) * c >= 0;
    } else if d <= -1 {
      assert (-d - 1) * c >= 0;
    }
  }

  /** A quotient and a remainder in range determine the division. */
  lemma Unique(x: int, q: int, m: int, c: int)
    requires c > 0 && 0 <= m < c && x == q * c + m
    ensures x % c == m
  {
    var q', m' := x / c, x % c;
    assert x == q' * c + m';
    assert (q - q') * c == m' - m;
    ScaleBounds(q - q', c);
  }

  /** Indices less than one modulus apart have different remainders. */
  lemma Distinct(x: int, y: int, c: int)
    requires c > 0 && x < y < x + c
    ensures x % c != y % c
  {
    assert x == (x / c) * c + x % c && y == (y / c) * c + y % c;
    var d := y / c - x / c;
    assert d * c == y - x - (y % c - x % c);
    ScaleBounds(d, c);
  }

  function Next(s: nat, c: nat): (t: nat)
    requires s < c
    ensures t < c
  {
    if s + 1 == c then 0 else s + 1
  }

  /** The slot `i` steps after `r`. */
  function Slot(r: nat, i: nat, c: nat): (s: nat)
    requires r < c
    ensures s < c
  {
    if i == 0 then r else Next(Slot(r, i - 1, c), c)
  }

  lemma NextIsRemainder(s: nat, c: nat)
    requires s < c
    ensures (s + 1) % c == Next(s, c)
  {
    Unique(s + 1, if s + 1 == c then 1 else 0, Next(s, c), c);
  }

  /** The step the code takes. */
  method Advance(s: nat, c: nat) returns (t: nat)
    requires s < c
    ensures t == Next(s, c)
  {
    NextIsRemainder(s, c);
    t := (s + 1) % c;
  }

  lemma StepRemainder(x: nat, c: nat)
    requires c > 0 && x % c < c
    ensures (x + 1) % c == Next(x % c, c)
  {
    var q, m := x / c, x % c;
    assert x == q * c + m;
    if m + 1 == c {
      assert (q + 1) * c == q * c + c;
      Unique(x + 1, q + 1, 0, c);
    } else {
      Unique(x + 1, q, m + 1, c);
    }
  }

  lemma {:induction false} SlotIsRemainder(r: nat, i: nat, c: nat)
    requires r < c
    ensures Slot(r, i, c) == (r + i) % c
  {
    if i == 0 {
      Unique(r, 0, r, c);
    } else {
      SlotIsRemainder(r, i - 1, c);
      StepRemainder(r + i - 1, c);
    }
  }

  lemma {:induction false} SlotCompose(r: nat, i: nat, j: nat, c: nat)
    requires r < c
    ensures Slot(Slot(r, i, c), j, c) == Slot(r, i + j, c)
  {
    if j > 0 {
      SlotCompose(r, i, j - 1, c);
    }
  }

  lemma SlotDistinct(r: nat, i: nat, j: nat, c: nat)
    requires r < c && i < j < i + c
    ensures Slot(r, i, c) != Slot(r, j, c)
  {
    SlotIsRemainder(r, i, c);
    SlotIsRemainder(r, j, c);
    Distinct(r + i, r + j, c);
  }
}
