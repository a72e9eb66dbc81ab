/**
 Where a byte of the device lives (scull/main.c): list item, slot of the item's pointer array and
 offset in the quantum, for quanta of q bytes and pointer arrays of n slots.
 */
module ScullGeometry {
  import opened Common

  datatype Place = Place(item: nat, slot: nat, off: nat)

  /** The division the driver performs. */
  function PlaceOf(pos: nat, q: nat, n: nat): Place
    requires q > 0 && n > 0
  {
    var itemsize := q * n;
    var rest := pos % itemsize;
    Place(pos / itemsize, rest / q, rest % q)
  }

  function PositionOf(at: Place, q: nat, n: nat): nat {
    (at.item * n + at.slot) * q + at.off
  }

  predicate InRange(at: Place, q: nat, n: nat) {
    at.slot < n && at.off < q
  }

  lemma Distribute(a: int, b: int, m: int)
    ensures (a + b) * m == a * m + b * m
  {
  }

  lemma Reassociate(a: int, b: int, c: int)
    ensures a * (b * c) == (a * c) * b
  {
  }

  lemma SmallMultiple(e: int, m: int)
    requires -m < e * m < m
    ensures e == 0
  {
  }

  lemma LessFactor(a: int, b: int, m: nat)
    requires a * m < b * m
    ensures a < b
  {
  }

  lemma MoreFactor(a: int, b: int, m: nat)
    requires a <= b
    ensures a * m <= b * m
  {
  }

  /** A quotient and a remainder in range are the only ones. */
  lemma DivModUnique(x: nat, m: nat, d: nat, r: nat)
    requires m > 0 && r < m && x == d * m + r
    ensures x / m == d && x % m == r
  {
    var e: int := x / m - d;
    Distribute(e, d, m);
    SmallMultiple(e, m);
  }

  lemma DigitsBelow(slot: nat, off: nat, q: nat, n: nat)
    requires slot < n && off < q
    ensures slot * q + off < n * q
  {
    Distribute(slot, 1, q);
    MoreFactor(slot + 1, n, q);
  }

  lemma FromDigits(pos: nat, q: nat, n: nat, item: nat, rest: nat, slot: nat, off: nat)
    requires pos == item * (q * n) + rest && rest == slot * q + off && rest < q * n && off < q
    ensures slot < n && pos == (item * n + slot) * q + off
    ensures pos / q == item * n + slot && pos % q == off
  {
    LessFactor(slot, n, q);
    Reassociate(item, q, n);
    Distribute(item * n, slot, q);
    DivModUnique(pos, q, item * n + slot, off);
  }

  /** The three coordinates are in range and determine the position; offsets are the remainders by q. */
  lemma PlaceIsRight(pos: nat, q: nat, n: nat)
    requires q > 0 && n > 0
    ensures InRange(PlaceOf(pos, q, n), q, n)
    ensures PositionOf(PlaceOf(pos, q, n), q, n) == pos
    ensures var at := PlaceOf(pos, q, n); pos / q == at.item * n + at.slot && pos % q == at.off
  {
    var at, rest := PlaceOf(pos, q, n), pos % (q * n);
    FromDigits(pos, q, n, at.item, rest, at.slot, at.off);
  }

  lemma PlaceInRange(pos: nat, q: nat, n: nat)
    requires q > 0 && n > 0
    ensures InRange(PlaceOf(pos, q, n), q, n)
  {
    PlaceIsRight(pos, q, n);
  }

  /** Every place in range is the place of its position, so the division is a bijection. */
  lemma PlaceIsUnique(at: Place, q: nat, n: nat)
    requires InRange(at, q, n)
    ensures PlaceOf(PositionOf(at, q, n), q, n) == at
  {
    var pos, itemsize := PositionOf(at, q, n), q * n;
    var rest := at.slot * q + at.off;
    DigitsBelow(at.slot, at.off, q, n);
    Reassociate(at.item, q, n);
    Distribute(at.item * n, at.slot, q);
    DivModUnique(pos, itemsize, at.item, rest);
    DivModUnique(rest, q, at.slot, at.off);
  }

  /** Up to the end of the quantum, following positions differ in the offset only. */
  lemma AlongTheQuantum(pos: nat, j: nat, q: nat, n: nat)
    requires q > 0 && n > 0 && PlaceOf(pos, q, n).off + j < q
    ensures var at := PlaceOf(pos, q, n); PlaceOf(pos + j, q, n) == Place(at.item, at.slot, at.off + j)
  {
    var at := PlaceOf(pos, q, n);
    PlaceIsRight(pos, q, n);
    PlaceIsUnique(Place(at.item, at.slot, at.off + j), q, n);
  }

  /** A list of len items holds exactly the positions below len times the item size. */
  lemma WithinList(pos: nat, len: nat, q: nat, n: nat)
    requires q > 0 && n > 0
    ensures PlaceOf(pos, q, n).item < len <==> pos < len * (q * n)
  {
    var m := q * n;
    assert pos == (pos / m) * m + pos % m;
    Distribute(pos / m, 1, m);
    if pos / m < len {
      MoreFactor(pos / m + 1, len, m);
    } else {
      MoreFactor(len, pos / m, m);
    }
  }

  /** So a stretch that ends with its quantum at the latest does not go past the list. */
  lemma StretchWithinList(pos: nat, k: nat, len: nat, q: nat, n: nat)
    requires q > 0 && n > 0 && PlaceOf(pos, q, n).item < len && PlaceOf(pos, q, n).off + k <= q
    ensures pos + k <= len * (q * n)
  {
    WithinList(pos, len, q, n);
    if k > 0 {
      AlongTheQuantum(pos, k - 1, q, n);
      WithinList(pos + k - 1, len, q, n);
    }
  }

  /** A list that has grown to hold pos still holds all the data, and the stretch from pos. */
  lemma GrownList(size: nat, len0: nat, len: nat, pos: nat, k: nat, q: nat, n: nat)
    requires q > 0 && n > 0 && size <= len0 * (q * n) && len0 <= len
    ensures size <= len * (q * n)
    ensures PlaceOf(pos, q, n).item < len && PlaceOf(pos, q, n).off + k <= q ==> pos + k <= len * (q * n)
  {
    MoreFactor(len0, len, q * n);
    if PlaceOf(pos, q, n).item < len && PlaceOf(pos, q, n).off + k <= q {
      StretchWithinList(pos, k, len, q, n);
    }
  }

  /** Two positions are in the same quantum exactly when their item and slot agree. */
  lemma SameQuantum(a: nat, b: nat, q: nat, n: nat)
    requires q > 0 && n > 0
    ensures var p, r := PlaceOf(a, q, n), PlaceOf(b, q, n);
      a / q == b / q <==> p.item == r.item && p.slot == r.slot
  {
    PlaceIsRight(a, q, n);
    PlaceIsRight(b, q, n);
    var p, r := PlaceOf(a, q, n), PlaceOf(b, q, n);
    if a / q == b / q {
      DivModUnique(a / q, n, p.item, p.slot);
      DivModUnique(b / q, n, r.item, r.slot);
    }
  }

  /** Counting quanta first and then items gives the same place. */
  lemma PlaceByQuanta(pos: nat, q: nat, n: nat)
    requires q > 0 && n > 0
    ensures var at := PlaceOf(pos, q, n); at.item == pos / q / n && at.slot == pos / q % n && at.off == pos % q
  {
    PlaceIsRight(pos, q, n);
    var at := PlaceOf(pos, q, n);
    DivModUnique(pos / q, n, at.item, at.slot);
  }

  /** Taking n away as often as possible ends with the quotient and the remainder. */
  lemma SubtractionsDivide(x: nat, n: nat, times: nat, left: nat)
    requires n > 0 && x == times * n + left
    ensures left < n ==> x / n == times && x % n == left
    ensures x / n >= times
  {
    if left < n {
      DivModUnique(x, n, times, left);
    } else {
      Distribute(x / n, 1, n);
      LessFactor(times, x / n + 1, n);
    }
  }

  // ----- How many calls a transfer takes -----

  /** The number of quanta that len bytes from pos touch: one call moves bytes of one quantum only. */
  function Touched(pos: nat, len: nat, q: nat): nat
    requires q > 0
  {
    if len == 0 then 0 else (pos + len - 1) / q - pos / q + 1
  }

  lemma NoneTouched(pos: nat, q: nat)
    requires q > 0
    ensures Touched(pos, 0, q) == 0
  {
  }

  /** A call that stops at the end of the data or of the quantum leaves one quantum less to go. */
  lemma OneCallLess(pos: nat, len: nat, q: nat)
    requires q > 0 && len > 0
    ensures var k := Min(len, q - pos % q);
      0 < k <= len && Touched(pos + k, len - k, q) == Touched(pos, len, q) - 1
  {
    var k, d, r := Min(len, q - pos % q), pos / q, pos % q;
    assert pos == d * q + r;
    if k == len {
      DivModUnique(pos + len - 1, q, d, r + len - 1);
    } else {
      assert pos + k == (d + 1) * q + 0;
      DivModUnique(pos + k, q, d + 1, 0);
    }
  }

  lemma SumOfQuotients(x: nat, y: nat, q: nat, d: nat, e: nat, f: nat)
    requires q > 0 && x == d * q && y == e * q + f && f < q
    ensures (x + y) / q == d + e && (y + q) / q == e + 1
  {
    Distribute(d, e, q);
    Distribute(e, 1, q);
    DivModUnique(x + y, q, d + e, f);
    DivModUnique(y + q, q, e + 1, f);
  }

  /** The bytes before pos in its quantum plus the data, in quanta, rounded up. */
  function Ceiling(pos: nat, len: nat, q: nat): nat
    requires q > 0
  {
    (pos % q + len + q - 1) / q
  }

  /** The bound in closed form. */
  lemma TouchedIsCeiling(pos: nat, len: nat, q: nat)
    requires q > 0 && len > 0
    ensures Touched(pos, len, q) == Ceiling(pos, len, q)
  {
    var y := pos % q + len - 1;
    SumOfQuotients(pos - pos % q, y, q, pos / q, y / q, y % q);
  }
}
