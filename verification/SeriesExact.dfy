/** When the two series are the same, slot by slot, while the rollup is behind. */
module SeriesExact {
  import opened Samples
  import opened Rollups
  import opened Slots
  import opened Series
  import opened SeriesCounts

  // ── A bucket says everything about its rows ─────────────────────────────────

  /** What holds of the figures of any rows. */
  predicate Sane(a: Agg) {
    && a.up <= a.count
    && (a.count == 0 ==> a == NOTHING)
    && (a.up == 0 ==> a.sum == 0)
  }

  lemma {:induction false} AggregateSane(rows: seq<Row>, p: Row -> bool)
    ensures Sane(Aggregate(rows, p))
  {
    if rows != [] {
      AggregateSane(rows[..|rows| - 1], p);
    }
  }

  lemma SameQuotient(x: nat, y: nat, d: nat)
    requires d > 0 && x as real / d as real == y as real / d as real
    ensures x == y
  {
    assert x as real == x as real / d as real * d as real;
    assert y as real == y as real / d as real * d as real;
  }

  /** The figures can be read back from a bucket. */
  lemma BucketShows(ts: nat, a: Agg, b: Agg)
    requires Sane(a) && Sane(b) && a.count > 0 && b.count > 0
    requires ToBucket(ts, a, a.sum, a.up) == ToBucket(ts, b, b.sum, b.up)
    ensures a == b
  {
    SameQuotient(a.up, b.up, a.count);
    if a.up > 0 {
      SameQuotient(a.sum, b.sum, a.up);
    }
  }

  // ── Series as figures per slot ──────────────────────────────────────────────

  /** The buckets of the first `k` slots with these figures, without the empty ones. */
  function Buckets(f: nat -> Agg, stamp: nat -> nat, k: nat): seq<SeriesBucket> {
    if k == 0 then [] else
      Buckets(f, stamp, k - 1) +
      if f(k - 1).count > 0 then [ToBucket(stamp(k - 1), f(k - 1), f(k - 1).sum, f(k - 1).up)] else []
  }

  ghost predicate Rising(stamp: nat -> nat, n: nat) {
    forall i, j :: 0 <= i < j < n ==> stamp(i) < stamp(j)
  }

  lemma {:induction false} StampedBefore(f: nat -> Agg, stamp: nat -> nat, k: nat, n: nat)
    requires k < n && Rising(stamp, n)
    ensures forall b :: b in Buckets(f, stamp, k) ==> b.ts < stamp(k)
  {
    if k > 0 {
      StampedBefore(f, stamp, k - 1, n);
      assert stamp(k - 1) < stamp(k);
    }
  }

  /** Two series with the same rising stamps are equal exactly when their figures are,
      slot for slot. */
  lemma {:induction false} SameBuckets(f: nat -> Agg, g: nat -> Agg, stamp: nat -> nat, k: nat)
    requires Rising(stamp, k) && forall i :: 0 <= i < k ==> Sane(f(i)) && Sane(g(i))
    ensures Buckets(f, stamp, k) == Buckets(g, stamp, k) <==> forall i :: 0 <= i < k ==> f(i) == g(i)
  {
    if k > 0 {
      var i := k - 1;
      SameBuckets(f, g, stamp, i);
      LastSlots(f, g, stamp, i);
    }
  }

  lemma LastSlots(f: nat -> Agg, g: nat -> Agg, stamp: nat -> nat, i: nat)
    requires Rising(stamp, i + 1) && Sane(f(i)) && Sane(g(i))
    ensures Buckets(f, stamp, i + 1) == Buckets(g, stamp, i + 1) <==>
            Buckets(f, stamp, i) == Buckets(g, stamp, i) && f(i) == g(i)
  {
    var fs, gs := Buckets(f, stamp, i), Buckets(g, stamp, i);
    var fb, gb := ToBucket(stamp(i), f(i), f(i).sum, f(i).up), ToBucket(stamp(i), g(i), g(i).sum, g(i).up);
    StampedBefore(f, stamp, i, i + 1);
    StampedBefore(g, stamp, i, i + 1);
    if f(i).count > 0 && g(i).count > 0 {
      if fs + [fb] == gs + [gb] {
        assert (fs + [fb])[|fs|] == (gs + [gb])[|gs|] && |fs| == |gs|;
        assert fs == (fs + [fb])[..|fs|] == gs;
        BucketShows(stamp(i), f(i), g(i));
      }
    } else if f(i).count > 0 {
      LastIsNew(fs, fb, gs);
    } else if g(i).count > 0 {
      LastIsNew(gs, gb, fs);
    }
  }

  lemma LastIsNew(longer: seq<SeriesBucket>, last: SeriesBucket, other: seq<SeriesBucket>)
    requires forall b :: b in other ==> b.ts < last.ts
    ensures longer + [last] != other + []
  {
    assert last in longer + [last];
  }

  // ── The two series in these terms ───────────────────────────────────────────

  function RawFigures(raw: seq<Row>, m: int, fromMs: nat, toMs: nat, n: nat): nat -> Agg
    requires n > 0
  {
    (i: nat) => Aggregate(raw, RawSlot(m, fromMs, toMs, n, i))
  }

  function RollupFigures(t: Table, m: int, fromMs: nat, toMs: nat, n: nat): nat -> Agg
    requires n > 0 && fromMs / 1000 < toMs / 1000
  {
    (i: nat) => JoinAll(SlotRows(t, m, fromMs, toMs, n, i))
  }

  function Stamps(fromMs: nat, toMs: nat, n: nat): nat -> nat
    requires n > 0
  {
    (i: nat) => Stamp(fromMs, toMs, n, i)
  }

  lemma {:induction false} RawAsBuckets(raw: seq<Row>, t: Table, m: int, from: nat, to: nat, n: nat, width: nat, k: nat)
    requires Gradual(raw, t, m, from, to, n, width)
    ensures RawSeries(raw, m, from * 1000, to * 1000, n, k) ==
            Buckets(RawFigures(raw, m, from * 1000, to * 1000, n), Stamps(from * 1000, to * 1000, n), k)
  {
    if k > 0 {
      RawAsBuckets(raw, t, m, from, to, n, width, k - 1);
      SlotTimes(raw, t, m, from, to, n, width, k - 1);
    }
  }

  lemma {:induction false} RollupAsBuckets(t: Table, m: int, fromMs: nat, toMs: nat, n: nat, k: nat)
    requires n > 0 && fromMs / 1000 < toMs / 1000
    requires forall i :: 0 <= i < k ==>
               (SlotRows(t, m, fromMs, toMs, n, i) == [] <==> RollupFigures(t, m, fromMs, toMs, n)(i).count == 0)
    ensures RollupSeries(t, m, fromMs, toMs, n, k) ==
            Buckets(RollupFigures(t, m, fromMs, toMs, n), Stamps(fromMs, toMs, n), k)
  {
    if k > 0 {
      RollupAsBuckets(t, m, fromMs, toMs, n, k - 1);
    }
  }

  lemma StampsRise(from: nat, to: nat, n: nat, width: nat)
    requires WholeRange(from, to, n, width)
    ensures Rising(Stamps(from * 1000, to * 1000, n), n)
  {
    SpanOfSlots(to - from, n, width);
    SlotIsMinutes(width);
    forall i, j | 0 <= i < j < n
      ensures Stamps(from * 1000, to * 1000, n)(i) < Stamps(from * 1000, to * 1000, n)(j)
    {
      StampsIncrease(i, j, from, to - from, n);
    }
  }

  lemma RollupSlotSane(raw: seq<Row>, t: Table, m: int, from: nat, to: nat, n: nat, width: nat, i: nat)
    requires Gradual(raw, t, m, from, to, n, width)
    ensures var rows := SlotRows(t, m, from * 1000, to * 1000, n, i);
            Sane(JoinAll(rows)) && (rows == [] <==> JoinAll(rows).count == 0)
  {
    var p := TableSlot(from, to - from, n, i);
    SlotRowsAt(t, m, from, to, n, i);
    Regroup(raw, t, m, from, to + 1, p);
    AggregateSane(raw, Behind(t, m, from, to + 1, p));
  }

  /** The rollup-backed series is the raw series if and only if each slot's table rows
      add up to its raw rows. */
  lemma SameSeriesExactly(raw: seq<Row>, t: Table, m: int, from: nat, to: nat, n: nat, width: nat)
    requires Gradual(raw, t, m, from, to, n, width)
    ensures RollupSeries(t, m, from * 1000, to * 1000, n, n) == RawSeries(raw, m, from * 1000, to * 1000, n, n) <==>
            forall i :: 0 <= i < n ==> SlotExact(raw, t, m, from, to, n, i)
  {
    var f, g := RollupFigures(t, m, from * 1000, to * 1000, n), RawFigures(raw, m, from * 1000, to * 1000, n);
    forall i | 0 <= i < n
      ensures Sane(f(i)) && Sane(g(i)) && (SlotRows(t, m, from * 1000, to * 1000, n, i) == [] <==> f(i).count == 0)
      ensures f(i) == g(i) <==> SlotExact(raw, t, m, from, to, n, i)
    {
      RollupSlotSane(raw, t, m, from, to, n, width, i);
      AggregateSane(raw, RawSlot(m, from * 1000, to * 1000, n, i));
    }
    StampsRise(from, to, n, width);
    RollupAsBuckets(t, m, from * 1000, to * 1000, n, n);
    RawAsBuckets(raw, t, m, from, to, n, width, n);
    SameBuckets(f, g, Stamps(from * 1000, to * 1000, n), n);
  }

  /** The table rows of slot `i` add up to its raw rows. */
  ghost predicate SlotExact(raw: seq<Row>, t: Table, m: int, from: nat, to: nat, n: nat, i: nat)
    requires n > 0 && from < to
  {
    JoinAll(SlotRows(t, m, from * 1000, to * 1000, n, i)) == Aggregate(raw, RawSlot(m, from * 1000, to * 1000, n, i))
  }

  // ── The exact condition ─────────────────────────────────────────────────────

  /** Every raw row of slot `i` has been rolled. */
  ghost predicate SlotRolled(raw: seq<Row>, t: Table, m: int, from: nat, to: nat, n: nat, i: nat)
    requires n > 0
  {
    forall r :: r in raw ==> !Unrolled(t, m, from, to, n, i)(r)
  }

  /** A slot over which no rolled row overhangs is exact when its rows have been rolled. */
  lemma ExactWhenRolled(raw: seq<Row>, t: Table, m: int, from: nat, to: nat, n: nat, width: nat, i: nat)
    requires Gradual(raw, t, m, from, to, n, width) && i < n
    requires i < n - 1 || !(HasOverhang(raw, m, to) && Key(m, to) in t)
    ensures SlotExact(raw, t, m, from, to, n, i) <==> SlotRolled(raw, t, m, from, to, n, i)
  {
    var rows := SlotRows(t, m, from * 1000, to * 1000, n, i);
    var a := Aggregate(raw, RawSlot(m, from * 1000, to * 1000, n, i));
    var b := Aggregate(raw, Unrolled(t, m, from, to, n, i));
    var extra := Aggregate(raw, Extra(t, m, to, i == n - 1));
    assert Join(JoinAll(rows), b) == Join(a, extra) by {
      SlotRowsAt(t, m, from, to, n, i);
      SlotSum(raw, t, m, from, to, n, width, i);
    }
    assert extra == NOTHING by {
      ExtraCount(raw, t, m, to, i == n - 1);
    }
    assert (b.count > 0 <==> !SlotRolled(raw, t, m, from, to, n, i)) && (b.count == 0 ==> b == NOTHING) by {
      AggregateNone(raw, Unrolled(t, m, from, to, n, i));
    }
    JoinNothing(a);
    JoinNothing(JoinAll(rows));
  }

  /** The answer is the raw series if and only if no minute of the range has been
      rolled and the raw rows answer, or every row outside the last slot has been
      rolled and the last slot's table rows add up to its raw rows. */
  lemma PartlyRolledServes(raw: seq<Row>, t: Table, m: int, from: nat, to: nat, n: nat, width: nat)
    requires Gradual(raw, t, m, from, to, n, width)
    ensures SeriesAnswer(raw, t, m, from * 1000, to * 1000, n) == RawSeries(raw, m, from * 1000, to * 1000, n, n) <==>
            || NoneRolled(t, m, from, to)
            || ((forall i :: 0 <= i < n - 1 ==> SlotRolled(raw, t, m, from, to, n, i))
                && SlotExact(raw, t, m, from, to, n, n - 1))
  {
    EmptyRollup(t, m, from, to, n);
    AnswerIsRollup(raw, t, m, from, to, n, width);
    SameSeriesExactly(raw, t, m, from, to, n, width);
    forall i | 0 <= i < n - 1
      ensures SlotExact(raw, t, m, from, to, n, i) <==> SlotRolled(raw, t, m, from, to, n, i)
    {
      ExactWhenRolled(raw, t, m, from, to, n, width, i);
    }
  }

  /** Where no rolled row overhangs the range the last slot is like the others: the
      answer is the raw series if and only if every row of the range has been
      rolled, or no minute has. */
  lemma WithoutOverhang(raw: seq<Row>, t: Table, m: int, from: nat, to: nat, n: nat, width: nat)
    requires Gradual(raw, t, m, from, to, n, width) && !(HasOverhang(raw, m, to) && Key(m, to) in t)
    ensures SeriesAnswer(raw, t, m, from * 1000, to * 1000, n) == RawSeries(raw, m, from * 1000, to * 1000, n, n) <==>
            AllRolled(raw, t, m, from, to) || NoneRolled(t, m, from, to)
  {
    PartlyRolledServes(raw, t, m, from, to, n, width);
    ExactWhenRolled(raw, t, m, from, to, n, width, n - 1);
    SlotsRolled(raw, t, m, from, to, n);
  }

  lemma SlotsRolled(raw: seq<Row>, t: Table, m: int, from: nat, to: nat, n: nat)
    requires n > 0 && from < to
    ensures AllRolled(raw, t, m, from, to) <==> forall i :: 0 <= i < n ==> SlotRolled(raw, t, m, from, to, n, i)
  {
    if AllRolled(raw, t, m, from, to) {
      forall i, r | 0 <= i < n && r in raw
        ensures !Unrolled(t, m, from, to, n, i)(r)
      {
        RawSlotAt(m, from, to, n, i, r);
      }
    } else {
      var r :| r in raw && r.monitor == Some(m) && from * 1000 <= r.at <= to * 1000 && Key(m, Minute(r.at)) !in t;
      var i := Slot(r.at - from * 1000, (to - from) * 1000, n);
      RawSlotAt(m, from, to, n, i, r);
      assert Unrolled(t, m, from, to, n, i)(r);
      assert i < n && !SlotRolled(raw, t, m, from, to, n, i);
    }
  }

  // ── Inputs ──────────────────────────────────────────────────────────────────

  /** Two minutes of a range of slots of a minute have a row each, and only the first
      has been rolled: the answer is not the raw series. */
  lemma HalfRolled(n: nat) returns (raw: seq<Row>, t: Table)
    requires n >= 2
    ensures Gradual(raw, t, 0, 0, 60 * n, n, 60) && !HasOverhang(raw, 0, 60 * n)
    ensures SeriesAnswer(raw, t, 0, 0, 60 * n * 1000, n) != RawSeries(raw, 0, 0, 60 * n * 1000, n, n)
  {
    var first, second := Row(Some(0), 0, true, Some(1), None), Row(Some(0), 60_000, true, Some(1), None);
    raw := [first, second];
    t := map[Key(0, 0) := Aggregate(raw, InMinute(0, 0))];
    assert first in raw && InMinute(0, 0)(first);
    assert second in raw && Key(0, Minute(second.at)) !in t;
    assert Key(0, 0) in t && !NoneRolled(t, 0, 0, 60 * n);
    WithoutOverhang(raw, t, 0, 0, 60 * n, n, 60);
  }

  /** A row of the range's last minute, and a like one of the minute after the range. */
  ghost predicate LikeRows(from: nat, to: nat, inside: Row, after: Row) {
    && to % 60 == 0 && to >= from + 60
    && inside.monitor == after.monitor == Some(0) && inside.up && after.up && inside.ms.Some? && after.ms == inside.ms
    && inside.at == (to - 60) * 1000 && after.at == to * 1000 + 500
  }

  /** The row of the range's last minute has not been rolled, but a like row of the
      minute after it has: the answer is the raw series all the same, because the
      one row stands in for the other. */
  lemma StandIn(from: nat, to: nat, n: nat, width: nat, inside: Row, after: Row)
    requires WholeRange(from, to, n, width) && LikeRows(from, to, inside, after)
    ensures var raw := [inside, after];
            var t := map[Key(0, to) := Aggregate(raw, InMinute(0, to))];
            && Gradual(raw, t, 0, from, to, n, width)
            && HasOverhang(raw, 0, to) && Key(0, to) in t && !AllRolled(raw, t, 0, from, to)
            && SeriesAnswer(raw, t, 0, from * 1000, to * 1000, n) == RawSeries(raw, 0, from * 1000, to * 1000, n, n)
  {
    var raw := [inside, after];
    var t := map[Key(0, to) := Aggregate(raw, InMinute(0, to))];
    StandInState(raw, t, from, to, inside, after);
    StandInElsewhere(raw, t, from, to, n, width, inside, after);
    assert Key(0, to) in t.Keys;
    StandInExact(raw, t, from, to, n, width, inside, after);
    PartlyRolledServes(raw, t, 0, from, to, n, width);
  }

  lemma StandInState(raw: seq<Row>, t: Table, from: nat, to: nat, inside: Row, after: Row)
    requires LikeRows(from, to, inside, after)
    requires raw == [inside, after] && t == map[Key(0, to) := Aggregate(raw, InMinute(0, to))]
    ensures Faithful(raw, t, 0, from, to + 1) && HasOverhang(raw, 0, to) && !AllRolled(raw, t, 0, from, to)
    ensures Minute(inside.at) == to - 60
  {
    OverhangMinute(after.at, to);
    OverhangMinute(inside.at, to - 60);
    assert after in raw && InMinute(0, to)(after) && Overhang(0, to)(after);
    assert inside in raw && Key(0, Minute(inside.at)) !in t;
  }

  lemma StandInElsewhere(raw: seq<Row>, t: Table, from: nat, to: nat, n: nat, width: nat, inside: Row, after: Row)
    requires WholeRange(from, to, n, width) && LikeRows(from, to, inside, after) && raw == [inside, after]
    ensures forall i :: 0 <= i < n - 1 ==> SlotRolled(raw, t, 0, from, to, n, i)
  {
    LastMinuteSlot(from, to, n, width);
    forall i | 0 <= i < n - 1
      ensures SlotRolled(raw, t, 0, from, to, n, i)
    {
      RawSlotAt(0, from, to, n, i, inside);
      RawSlotAt(0, from, to, n, i, after);
    }
  }

  /** The last minute of the range lies in the last slot. */
  lemma LastMinuteSlot(from: nat, to: nat, n: nat, width: nat)
    requires WholeRange(from, to, n, width)
    ensures to >= from + 60 && Slot((to - 60) * 1000 - from * 1000, (to - from) * 1000, n) == n - 1
  {
    var y := to - from - 60;
    SpanOfSlots(to - from, n, width);
    SlotIsMinutes(width);
    Distribute(n - 1, 1, width);
    DivUnique(y, width, n - 1, width - 60);
    SlotIsQuotient(y, width, n);
    SlotScale(y, to - from, n, 1000);
  }

  lemma StandInRows(t: Table, from: nat, to: nat, n: nat, width: nat, inside: Row, after: Row)
    requires WholeRange(from, to, n, width) && LikeRows(from, to, inside, after)
    requires Key(0, to) in t.Keys && Key(0, Minute(inside.at)) !in t.Keys
    ensures var behind := Behind(t, 0, from, to + 1, TableSlot(from, to - from, n, n - 1));
            var slot := RawSlot(0, from * 1000, to * 1000, n, n - 1);
            !behind(inside) && behind(after) && slot(inside) && !slot(after)
  {
    OverhangSlot(after.at, from, to, n);
    LastMinuteSlot(from, to, n, width);
    RawSlotAt(0, from, to, n, n - 1, inside);
    RawSlotAt(0, from, to, n, n - 1, after);
  }

  /** Each selection takes one of two like rows. */
  lemma OneOfTwo(a: Row, b: Row, p: Row -> bool, q: Row -> bool)
    requires Single(a) == Single(b) && !p(a) && p(b) && q(a) && !q(b)
    ensures Aggregate([a, b], p) == Aggregate([a, b], q)
  {
    AggregatePair(a, b, p);
    AggregatePair(a, b, q);
    JoinNothing(Single(b));
  }

  lemma StandInExact(raw: seq<Row>, t: Table, from: nat, to: nat, n: nat, width: nat, inside: Row, after: Row)
    requires Gradual(raw, t, 0, from, to, n, width) && LikeRows(from, to, inside, after) && raw == [inside, after]
    requires Key(0, to) in t.Keys && Key(0, Minute(inside.at)) !in t.Keys
    ensures SlotExact(raw, t, 0, from, to, n, n - 1)
  {
    var p := TableSlot(from, to - from, n, n - 1);
    StandInRows(t, from, to, n, width, inside, after);
    OneOfTwo(inside, after, Behind(t, 0, from, to + 1, p), RawSlot(0, from * 1000, to * 1000, n, n - 1));
    SlotRowsAt(t, 0, from, to, n, n - 1);
    Regroup(raw, t, 0, from, to + 1, p);
  }
}
