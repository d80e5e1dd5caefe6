/** The bucket arithmetic of the two series queries. */
module Slots {
  import opened Rollups

  /** `MIN(n - 1, offset * n / span)`: the slot of an offset into the span. */
  function Slot(offset: nat, span: nat, n: nat): nat
    requires n > 0 && span > 0
  {
    AtMost(offset * n / span, n - 1)
  }

  function AtMost(x: nat, bound: nat): nat { if x <= bound then x else bound }

  // ── Multiplication and division ─────────────────────────────────────────────

  lemma MulMono(x: int, y: int, z: int)
    requires x <= y && z >= 0
    ensures x * z <= y * z
  {
  }

  lemma Distribute(x: int, y: int, z: int)
    ensures (x + y) * z == x * z + y * z
  {
  }

  lemma Regroup3(x: int, y: int, z: int)
    ensures x * y * z == x * (y * z) == x * z * y
  {
  }

  lemma DivMod(a: nat, d: nat)
    requires d > 0
    ensures a == a / d * d + a % d && 0 <= a % d < d
  {
  }

  lemma DivUnique(a: nat, d: nat, q: nat, r: nat)
    requires d > 0 && a == q * d + r && r < d
    ensures a / d == q
  {
    DivMod(a, d);
    Distribute(q, 1, d);
    Distribute(a / d, 1, d);
    if a / d > q {
      MulMono(q + 1, a / d, d);
    } else if q > a / d {
      MulMono(a / d + 1, q, d);
    }
  }

  lemma DivMono(a: nat, b: nat, d: nat)
    requires d > 0 && a <= b
    ensures a / d <= b / d
  {
    DivMod(a, d);
    DivMod(b, d);
    Distribute(b / d, 1, d);
    if b / d < a / d {
      MulMono(b / d + 1, a / d, d);
    }
  }

  lemma DivAdd(b: nat, d: nat)
    requires d > 0
    ensures (b + d) / d == b / d + 1
  {
    DivMod(b, d);
    Distribute(b / d, 1, d);
    DivUnique(b + d, d, b / d + 1, b % d);
  }

  /** A common factor of numerator and denominator cancels. */
  lemma DivScale(a: nat, d: nat, c: nat)
    requires d > 0 && c > 0
    ensures d * c > 0 && (a * c) / (d * c) == a / d
  {
    var q, r := a / d, a % d;
    DivMod(a, d);
    Distribute(q * d, r, c);
    Regroup3(q, d, c);
    MulMono(r + 1, d, c);
    Distribute(r, 1, c);
    DivUnique(a * c, d * c, q, r * c);
  }

  lemma NestedDiv(x: nat, a: nat, b: nat)
    requires a > 0 && b > 0
    ensures b * a > 0 && x / (b * a) == x / a / b
  {
    var q, r := x / a, x % a;
    var q', r' := q / b, q % b;
    DivMod(x, a);
    DivMod(q, b);
    Distribute(q' * b, r', a);
    Regroup3(q', b, a);
    MulMono(r' + 1, b, a);
    Distribute(r', 1, a);
    DivUnique(x, b * a, q', r' * a + r);
  }

  // ── Slots ───────────────────────────────────────────────────────────────────

  lemma SlotMono(x: nat, y: nat, span: nat, n: nat)
    requires n > 0 && span > 0 && x <= y
    ensures Slot(x, span, n) <= Slot(y, span, n) < n
  {
    MulMono(x, y, n);
    DivMono(x * n, y * n, span);
  }

  /** A shift of the offset by at most one slot's width moves it by at most one slot. */
  lemma SlotShift(x: nat, y: nat, width: nat, span: nat, n: nat)
    requires n > 0 && span > 0
    requires x <= y <= x + width && width * n <= span
    ensures Slot(x, span, n) <= Slot(y, span, n) <= Slot(x, span, n) + 1
  {
    SlotMono(x, y, span, n);
    MulMono(y, x + width, n);
    Distribute(x, width, n);
    DivMono(y * n, x * n + span, span);
    DivAdd(x * n, span);
  }

  lemma SlotScale(x: nat, span: nat, n: nat, c: nat)
    requires n > 0 && span > 0 && c > 0
    ensures span * c > 0 && Slot(x * c, span * c, n) == Slot(x, span, n)
  {
    Regroup3(x, c, n);
    DivScale(x * n, span, c);
  }

  lemma GateBound(span: nat, n: nat)
    requires n > 0 && span / n >= 60
    ensures 60 * n <= span
  {
    DivMod(span, n);
    MulMono(60, span / n, n);
  }

  /** When the rollup serves a range, a row's rollup slot is its raw slot or the
      one just before it; both lie among the `n` slots. */
  lemma RollupSlotNearRawSlot(at: nat, from: nat, span: nat, n: nat)
    requires n > 0 && span / n >= 60
    requires from <= Minute(at)
    ensures span > 0
    ensures var i, j := Slot(at - from * 1000, span * 1000, n), Slot(Minute(at) - from, span, n);
            j <= i <= j + 1 && i < n
  {
    var y := Minute(at) - from;
    GateBound(span, n);
    SlotScale(y, span, n, 1000);
    MinuteFacts(at);
    Distribute(60, 0, n);
    SlotShift(y * 1000, at - from * 1000, 60_000, span * 1000, n);
    SlotMono(at - from * 1000, at - from * 1000, span * 1000, n);
  }

  /** Neither the raw slot nor the rollup slot of a later row is an earlier one. */
  lemma SlotsFollowTime(at: nat, later: nat, from: nat, span: nat, n: nat)
    requires n > 0 && span > 0 && from <= Minute(at) && at <= later
    ensures Slot(at - from * 1000, span * 1000, n) <= Slot(later - from * 1000, span * 1000, n)
    ensures Minute(at) <= Minute(later)
    ensures Slot(Minute(at) - from, span, n) <= Slot(Minute(later) - from, span, n)
  {
    MinutesFollowTime(at, later);
    SlotMono(at - from * 1000, later - from * 1000, span * 1000, n);
    SlotMono(Minute(at) - from, Minute(later) - from, span, n);
  }

  /** The stamps of successive slots strictly increase. */
  lemma StampsIncrease(i: nat, j: nat, from: nat, span: nat, n: nat)
    requires n > 0 && span / n >= 60 && i < j
    ensures from + i * span / n < from + j * span / n
  {
    GateBound(span, n);
    MulMono(i + 1, j, span);
    Distribute(i, 1, span);
    DivMono(i * span + n, j * span, n);
    DivAdd(i * span, n);
  }

  // ── Slots of whole minutes ──────────────────────────────────────────────────

  /** The span consists of `n` slots of `width` seconds, a number of whole minutes. */
  predicate WholeMinuteSlots(span: nat, n: nat, width: nat) {
    n > 0 && width > 0 && width % 60 == 0 && span == width * n
  }

  lemma SpanOfSlots(span: nat, n: nat, width: nat)
    requires WholeMinuteSlots(span, n, width)
    ensures span >= 60 && span % 60 == 0 && span / n == width
  {
    var k := width / 60;
    Regroup3(60, k, n);
    MulMono(1, k, n);
    DivUnique(span, n, width, 0);
  }

  /** An offset's slot is the number of whole slots before it. */
  lemma SlotIsQuotient(x: nat, width: nat, n: nat)
    requires n > 0 && width > 0
    ensures width * n > 0 && Slot(x, width * n, n) == AtMost(x / width, n - 1)
  {
    DivScale(x, width, n);
  }

  /** The seconds within a minute never reach the next slot. */
  lemma WithinMinute(y: nat, s: nat, width: nat)
    requires width > 0 && width % 60 == 0 && y % 60 == 0 && s < 60
    ensures (y + s) / width == y / width
  {
    NestedDiv(y, 60, width / 60);
    NestedDiv(y + s, 60, width / 60);
  }

  lemma MinuteOffset(at: nat, from: nat)
    requires from % 60 == 0 && from * 1000 <= at
    ensures var y := Minute(at) - from;
            from <= Minute(at) && y % 60 == 0 && y <= (at - from * 1000) / 1000 < y + 60
  {
  }

  /** Over whole minutes with slots of whole minutes, no minute straddles two slots. */
  lemma AlignedSlots(at: nat, from: nat, span: nat, n: nat, width: nat)
    requires WholeMinuteSlots(span, n, width) && from % 60 == 0 && from * 1000 <= at
    ensures from <= Minute(at) && span > 0
    ensures Slot(at - from * 1000, span * 1000, n) == Slot(Minute(at) - from, span, n)
  {
    var x := at - from * 1000;
    MinuteOffset(at, from);
    var y := Minute(at) - from;
    SpanOfSlots(span, n, width);
    SlotIsQuotient(y, width, n);
    SlotIsQuotient(x, width * 1000, n);
    Regroup3(width, 1000, n);
    NestedDiv(x, 1000, width);
    WithinMinute(y, x / 1000 - y, width);
  }

  /** The last slot takes what lies a whole span in. */
  lemma LastSlot(span: nat, n: nat)
    requires n > 0 && span > 0
    ensures Slot(span, span, n) == n - 1
  {
    Regroup3(1, span, n);
    DivUnique(span * n, span, n, 0);
  }

  /** A row that overhangs the range lies in the last slot of the rollup query. */
  lemma OverhangSlot(at: nat, from: nat, to: nat, n: nat)
    requires n > 0 && from < to && to % 60 == 0 && to * 1000 <= at < (to + 60) * 1000
    ensures Minute(at) == to && Slot(Minute(at) - from, to - from, n) == n - 1
  {
    OverhangMinute(at, to);
    LastSlot(to - from, n);
  }

  lemma OverhangMinute(at: nat, to: nat)
    requires to % 60 == 0 && to * 1000 <= at < (to + 60) * 1000
    ensures Minute(at) == to
  {
  }
}
