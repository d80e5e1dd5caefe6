/** What every bucket of a chart series says about the rows, in plain terms. */
module SeriesMeaning {
  import opened Samples
  import opened RowCounts
  import opened Rollups
  import opened Slots
  import opened Series
  import opened SeriesCounts

  // ── One bucket ──────────────────────────────────────────────────────────────

  /** MIN and MAX: there exactly when a row has a response time, attained, and bounds. */
  ghost predicate SaysExtremes(lo: Option<nat>, hi: Option<nat>, rows: seq<Row>) {
    && (lo.Some? <==> exists r :: r in rows && r.ms.Some?)
    && (hi.Some? <==> exists r :: r in rows && r.ms.Some?)
    && (lo.Some? ==> exists r :: r in rows && r.ms == lo)
    && (hi.Some? ==> exists r :: r in rows && r.ms == hi)
    && (lo.Some? && hi.Some? ==> forall r :: r in rows && r.ms.Some? ==> lo.value <= r.ms.value <= hi.value)
  }

  /** The bucket counts `rows`, of which `ups` are 'up', and averages over `averaged`. */
  ghost predicate BucketSays(b: SeriesBucket, rows: seq<Row>, ups: seq<Row>, averaged: seq<Row>) {
    && b.count == |rows| > 0
    && SaysExtremes(b.lo, b.hi, rows)
    && b.upRatio * |rows| as real == |ups| as real
    && (b.avg.None? <==> averaged == [])
    && (b.avg.Some? ==> b.avg.value * |averaged| as real == TotalMs(averaged) as real)
  }

  lemma AggregateSaysExtremes(raw: seq<Row>, p: Row -> bool)
    ensures SaysExtremes(Aggregate(raw, p).lo, Aggregate(raw, p).hi, Filter(raw, p))
  {
    AggregateBounds(raw, p);
  }

  lemma RatioTimes(a: nat, b: nat)
    requires b > 0
    ensures Ratio(a, b) * b as real == a as real
  {
    QuotientTimes(a, b);
  }

  lemma MeanTimes(sum: nat, number: nat)
    ensures Mean(sum, number).None? <==> number == 0
    ensures Mean(sum, number).Some? ==> Mean(sum, number).value * number as real == sum as real
  {
    if number > 0 {
      QuotientTimes(sum, number);
    }
  }

  lemma BucketIsRight(b: SeriesBucket, a: Agg, rows: seq<Row>, ups: seq<Row>, averaged: seq<Row>,
                      ts: nat, sum: nat, number: nat)
    requires b == ToBucket(ts, a, sum, number)
    requires a.count == |rows| > 0 && a.up == |ups| && SaysExtremes(a.lo, a.hi, rows)
    requires number == |averaged| && sum == TotalMs(averaged)
    ensures BucketSays(b, rows, ups, averaged) && b.ts == ts
  {
    RatioTimes(a.up, a.count);
    MeanTimes(sum, number);
  }

  lemma FiguresOfSlot(raw: seq<Row>, p: Row -> bool, ups: Row -> bool)
    requires forall r :: ups(r) <==> p(r) && r.up
    ensures var a := Aggregate(raw, p);
            && a.count == |Filter(raw, p)| && a.up == |Filter(raw, ups)| && a.sum == TotalMs(Filter(raw, ups))
            && SaysExtremes(a.lo, a.hi, Filter(raw, p))
  {
    AggregateCounts(raw, p);
    FilterCong(raw, ups, UpOnly(p));
    AggregateSaysExtremes(raw, p);
  }

  /** AVG's two parts: the response times and how many there are. */
  lemma {:induction false} TimesMeans(raw: seq<Row>, p: Row -> bool)
    ensures Times(raw, p) == (TotalMs(Filter(raw, Timed(p))), |Filter(raw, Timed(p))|)
  {
    if raw != [] {
      var init, last := raw[..|raw| - 1], raw[|raw| - 1];
      TimesMeans(init, p);
      TotalMsAppend(Filter(init, Timed(p)), last);
    }
  }

  // ── A whole series ──────────────────────────────────────────────────────────

  /** How a series is made of `n` slots: which rows are in slot `i`, which of them are
      'up', over which it averages, and its stamp. */
  datatype Plan = Plan(slot: nat -> Row -> bool, ups: nat -> Row -> bool, averaged: nat -> Row -> bool,
                       stamp: nat -> nat)

  /** Bucket `j` is that of slot `at[j]`; slots come in order, those without rows are
      left out, and no other. */
  ghost predicate SeriesSays(out: seq<SeriesBucket>, raw: seq<Row>, n: nat, plan: Plan, at: seq<nat>) {
    && |at| == |out|
    && (forall i, j :: 0 <= i < j < |at| ==> at[i] < at[j])
    && (forall j :: 0 <= j < |at| ==> at[j] < n && SlotBucket(out[j], raw, plan, at[j]))
    && (forall i: nat :: i < n && SlotFilled(raw, plan, i) ==> i in at)
  }

  ghost predicate SlotBucket(b: SeriesBucket, raw: seq<Row>, plan: Plan, i: nat) {
    && b.ts == plan.stamp(i)
    && BucketSays(b, Filter(raw, plan.slot(i)), Filter(raw, plan.ups(i)), Filter(raw, plan.averaged(i)))
  }

  ghost predicate SlotFilled(raw: seq<Row>, plan: Plan, i: nat) {
    exists r :: r in raw && plan.slot(i)(r)
  }

  /** The bucket of slot `k`, or none. */
  lemma NextSlotSays(out: seq<SeriesBucket>, raw: seq<Row>, k: nat, plan: Plan, before: seq<nat>,
                     next: seq<SeriesBucket>)
    returns (at: seq<nat>)
    requires SeriesSays(out, raw, k, plan, before)
    requires if SlotFilled(raw, plan, k) then |next| == 1 && SlotBucket(next[0], raw, plan, k) else next == []
    ensures SeriesSays(out + next, raw, k + 1, plan, at)
  {
    at := before;
    if SlotFilled(raw, plan, k) {
      at := before + [k];
      assert out + next == out + [next[0]];
    } else {
      assert out + next == out;
    }
  }

  // ── The raw series ──────────────────────────────────────────────────────────

  /** Slot `i` of `n` over [fromMs, toMs], both ends included: the stamp's place in the
      range, in `n`ths, rounded down, the end itself in the last slot. */
  predicate InSlot(at: nat, fromMs: nat, toMs: nat, n: nat, i: nat)
    requires n > 0
  {
    && fromMs <= at <= toMs
    && var place := (at - fromMs) * n / (if toMs > fromMs then toMs - fromMs else 1);
       i == if place < n then place else n - 1
  }

  /** The raw series: rows by their stamps, averages over rows with a response time. */
  ghost predicate RawPlan(plan: Plan, m: int, fromMs: nat, toMs: nat, n: nat)
    requires n > 0
  {
    && (forall i, r: Row :: plan.slot(i)(r) <==> r.monitor == Some(m) && InSlot(r.at, fromMs, toMs, n, i))
    && PlansUpsAndStamps(plan, fromMs / 1000, toMs / 1000, n)
    && (forall i, r: Row :: plan.averaged(i)(r) <==> plan.slot(i)(r) && r.ms.Some?)
  }

  ghost predicate PlansUpsAndStamps(plan: Plan, from: nat, to: nat, n: nat)
    requires n > 0
  {
    && (forall i, r: Row :: plan.ups(i)(r) <==> plan.slot(i)(r) && r.up)
    && (forall i: nat :: plan.stamp(i) == from + i * (if to > from then to - from else 1) / n)
  }

  lemma RawSlotIs(m: int, fromMs: nat, toMs: nat, n: nat, i: nat, r: Row)
    requires n > 0
    ensures RawSlot(m, fromMs, toMs, n, i)(r) <==> r.monitor == Some(m) && InSlot(r.at, fromMs, toMs, n, i)
  {
  }

  lemma RawBucketSays(raw: seq<Row>, m: int, fromMs: nat, toMs: nat, n: nat, plan: Plan, i: nat)
    requires n > 0 && RawPlan(plan, m, fromMs, toMs, n)
    ensures SlotFilled(raw, plan, i) <==> Aggregate(raw, RawSlot(m, fromMs, toMs, n, i)).count > 0
    ensures SlotFilled(raw, plan, i) ==> SlotBucket(RawBucket(raw, m, fromMs, toMs, n, i), raw, plan, i)
  {
    var p := RawSlot(m, fromMs, toMs, n, i);
    forall r | r in raw
      ensures plan.slot(i)(r) == p(r)
    {
      RawSlotIs(m, fromMs, toMs, n, i, r);
    }
    AggregateCong(raw, p, plan.slot(i));
    AggregateNone(raw, plan.slot(i));
    if SlotFilled(raw, plan, i) {
      SameTimes(raw, p, plan.slot(i));
      TimesMeans(raw, plan.slot(i));
      FilterCong(raw, Timed(plan.slot(i)), plan.averaged(i));
      FiguresOfSlot(raw, plan.slot(i), plan.ups(i));
      BucketIsRight(RawBucket(raw, m, fromMs, toMs, n, i), Aggregate(raw, p), Filter(raw, plan.slot(i)),
                    Filter(raw, plan.ups(i)), Filter(raw, plan.averaged(i)), Stamp(fromMs, toMs, n, i),
                    Times(raw, p).0, Times(raw, p).1);
    }
  }

  lemma {:induction false} SameTimes(raw: seq<Row>, p: Row -> bool, q: Row -> bool)
    requires forall r :: r in raw ==> p(r) == q(r)
    ensures Times(raw, p) == Times(raw, q)
  {
    if raw != [] {
      SameTimes(raw[..|raw| - 1], p, q);
    }
  }

  /** The raw series, bucket by bucket. */
  lemma {:induction false} RawSeriesSays(raw: seq<Row>, m: int, fromMs: nat, toMs: nat, n: nat, plan: Plan, k: nat)
    returns (at: seq<nat>)
    requires n > 0 && RawPlan(plan, m, fromMs, toMs, n)
    ensures SeriesSays(RawSeries(raw, m, fromMs, toMs, n, k), raw, k, plan, at)
  {
    at := [];
    if k > 0 {
      var before := RawSeriesSays(raw, m, fromMs, toMs, n, plan, k - 1);
      var rest := RawSeries(raw, m, fromMs, toMs, n, k - 1);
      RawBucketSays(raw, m, fromMs, toMs, n, plan, k - 1);
      at := NextSlotSays(rest, raw, k - 1, plan, before,
                         if SlotFilled(raw, plan, k - 1) then [RawBucket(raw, m, fromMs, toMs, n, k - 1)] else []);
    }
  }

  // ── The rollup-backed series ────────────────────────────────────────────────

  /** The rollup-backed series: rolled rows by their minutes, both ends of the range
      included, and averages over the 'up' rows. */
  ghost predicate RollupPlan(plan: Plan, t: Table, m: int, from: nat, to: nat, n: nat)
    requires n > 0 && from < to
  {
    && (forall i, r: Row :: plan.slot(i)(r) <==>
          r.monitor == Some(m) && Key(m, Minute(r.at)) in t && InSlot(Minute(r.at), from, to, n, i))
    && PlansUpsAndStamps(plan, from, to, n)
    && (forall i, r: Row :: plan.averaged(i)(r) <==> plan.slot(i)(r) && r.up)
  }

  lemma BehindIs(t: Table, m: int, from: nat, to: nat, n: nat, i: nat, r: Row)
    requires n > 0 && from < to
    ensures Behind(t, m, from, to + 1, TableSlot(from, to - from, n, i))(r) <==>
            r.monitor == Some(m) && Key(m, Minute(r.at)) in t && InSlot(Minute(r.at), from, to, n, i)
  {
    var b := Minute(r.at);
    if from <= b <= to {
      SlotIs(b - from, to - from, n);
      assert TableSlot(from, to - from, n, i)(b) <==> Slot(b - from, to - from, n) == i;
    }
  }

  lemma SlotIs(offset: nat, span: nat, n: nat)
    requires n > 0 && span > 0
    ensures var place := offset * n / span; Slot(offset, span, n) == if place < n then place else n - 1
  {
  }

  /** The table rows of a slot are the figures of the rows planned for it. */
  lemma PlannedRows(raw: seq<Row>, t: Table, m: int, fromMs: nat, toMs: nat, n: nat, plan: Plan, i: nat)
    requires n > 0 && fromMs / 1000 < toMs / 1000 && Faithful(raw, t, m, fromMs / 1000, toMs / 1000 + 1)
    requires RollupPlan(plan, t, m, fromMs / 1000, toMs / 1000, n)
    ensures JoinAll(SlotRows(t, m, fromMs, toMs, n, i)) == Aggregate(raw, plan.slot(i))
    ensures SlotRows(t, m, fromMs, toMs, n, i) == [] <==> Aggregate(raw, plan.slot(i)).count == 0
  {
    var from, to := fromMs / 1000, toMs / 1000;
    var p := Behind(t, m, from, to + 1, TableSlot(from, to - from, n, i));
    forall r | r in raw
      ensures plan.slot(i)(r) == p(r)
    {
      BehindIs(t, m, from, to, n, i, r);
    }
    Regroup(raw, t, m, from, to + 1, TableSlot(from, to - from, n, i));
    AggregateCong(raw, p, plan.slot(i));
  }

  lemma RollupBucketSays(raw: seq<Row>, t: Table, m: int, fromMs: nat, toMs: nat, n: nat, plan: Plan, i: nat)
    requires n > 0 && fromMs / 1000 < toMs / 1000 && Faithful(raw, t, m, fromMs / 1000, toMs / 1000 + 1)
    requires RollupPlan(plan, t, m, fromMs / 1000, toMs / 1000, n)
    ensures SlotFilled(raw, plan, i) <==> SlotRows(t, m, fromMs, toMs, n, i) != []
    ensures SlotFilled(raw, plan, i) ==> SlotBucket(RollupBucket(t, m, fromMs, toMs, n, i), raw, plan, i)
  {
    PlannedRows(raw, t, m, fromMs, toMs, n, plan, i);
    AggregateNone(raw, plan.slot(i));
    if SlotFilled(raw, plan, i) {
      var a := Aggregate(raw, plan.slot(i));
      FiguresOfSlot(raw, plan.slot(i), plan.ups(i));
      FilterCong(raw, plan.ups(i), plan.averaged(i));
      BucketIsRight(RollupBucket(t, m, fromMs, toMs, n, i), a, Filter(raw, plan.slot(i)),
                    Filter(raw, plan.ups(i)), Filter(raw, plan.averaged(i)), Stamp(fromMs, toMs, n, i), a.sum, a.up);
    }
  }

  /** The rollup-backed series, bucket by bucket. */
  lemma {:induction false} RollupSeriesSays(raw: seq<Row>, t: Table, m: int, fromMs: nat, toMs: nat, n: nat,
                                            plan: Plan, k: nat)
    returns (at: seq<nat>)
    requires n > 0 && fromMs / 1000 < toMs / 1000 && Faithful(raw, t, m, fromMs / 1000, toMs / 1000 + 1)
    requires RollupPlan(plan, t, m, fromMs / 1000, toMs / 1000, n)
    ensures SeriesSays(RollupSeries(t, m, fromMs, toMs, n, k), raw, k, plan, at)
  {
    at := [];
    if k > 0 {
      var before := RollupSeriesSays(raw, t, m, fromMs, toMs, n, plan, k - 1);
      var rest := RollupSeries(t, m, fromMs, toMs, n, k - 1);
      RollupBucketSays(raw, t, m, fromMs, toMs, n, plan, k - 1);
      at := NextSlotSays(rest, raw, k - 1, plan, before,
                         if SlotFilled(raw, plan, k - 1) then [RollupBucket(t, m, fromMs, toMs, n, k - 1)] else []);
    }
  }

  // ── Which of the two is answered ────────────────────────────────────────────

  /** The rollup answers when each of the `n` slots is a minute or longer and the table
      has a row of the monitor in the range; otherwise the raw rows do. */
  predicate RollupAnswers(t: Table, m: int, fromMs: nat, toMs: nat, n: nat)
    requires n > 0
  {
    var from, to := fromMs / 1000, toMs / 1000;
    from < to && (to - from) / n >= 60 && exists b :: from <= b <= to && Key(m, b) in t
  }

  lemma SecondsOf(fromMs: nat, toMs: nat)
    ensures fromMs / 1000 * 1000 / 1000 == fromMs / 1000 && toMs / 1000 * 1000 / 1000 == toMs / 1000
  {
  }

  lemma SameSecondsSlot(t: Table, m: int, fromMs: nat, toMs: nat, fromMs': nat, toMs': nat, n: nat, i: nat)
    requires n > 0 && fromMs / 1000 < toMs / 1000
    requires fromMs / 1000 == fromMs' / 1000 && toMs / 1000 == toMs' / 1000
    ensures SlotRows(t, m, fromMs, toMs, n, i) == SlotRows(t, m, fromMs', toMs', n, i)
    ensures RollupBucket(t, m, fromMs, toMs, n, i) == RollupBucket(t, m, fromMs', toMs', n, i)
  {
    assert Stamp(fromMs, toMs, n, i) == Stamp(fromMs', toMs', n, i);
  }

  lemma {:induction false} SameSeconds(t: Table, m: int, fromMs: nat, toMs: nat, fromMs': nat, toMs': nat,
                                       n: nat, k: nat)
    requires n > 0 && fromMs / 1000 < toMs / 1000
    requires fromMs / 1000 == fromMs' / 1000 && toMs / 1000 == toMs' / 1000
    ensures RollupSeries(t, m, fromMs, toMs, n, k) == RollupSeries(t, m, fromMs', toMs', n, k)
  {
    if k > 0 {
      SameSeconds(t, m, fromMs, toMs, fromMs', toMs', n, k - 1);
      SameSecondsSlot(t, m, fromMs, toMs, fromMs', toMs', n, k - 1);
    }
  }

  lemma AnswerIs(raw: seq<Row>, t: Table, m: int, fromMs: nat, toMs: nat, n: nat)
    requires n > 0
    ensures SeriesAnswer(raw, t, m, fromMs, toMs, n) ==
            if RollupAnswers(t, m, fromMs, toMs, n) then RollupSeries(t, m, fromMs, toMs, n, n)
            else RawSeries(raw, m, fromMs, toMs, n, n)
  {
    var from, to := fromMs / 1000, toMs / 1000;
    if from < to {
      SecondsOf(fromMs, toMs);
      SameSeconds(t, m, fromMs, toMs, from * 1000, to * 1000, n, n);
      EmptyRollup(t, m, from, to, n);
    }
  }

  /** A chart answer, in plain terms: which rows each bucket counts, and what it says of
      them. */
  lemma AnswerSays(raw: seq<Row>, t: Table, m: int, fromMs: nat, toMs: nat, n: nat, plan: Plan) returns (at: seq<nat>)
    requires n > 0
    requires if RollupAnswers(t, m, fromMs, toMs, n)
             then RollupPlan(plan, t, m, fromMs / 1000, toMs / 1000, n)
                  && Faithful(raw, t, m, fromMs / 1000, toMs / 1000 + 1)
             else RawPlan(plan, m, fromMs, toMs, n)
    ensures SeriesSays(SeriesAnswer(raw, t, m, fromMs, toMs, n), raw, n, plan, at)
  {
    AnswerIs(raw, t, m, fromMs, toMs, n);
    if RollupAnswers(t, m, fromMs, toMs, n) {
      at := RollupSeriesSays(raw, t, m, fromMs, toMs, n, plan, n);
    } else {
      at := RawSeriesSays(raw, m, fromMs, toMs, n, plan, n);
    }
  }
}
