/** Chart series: the raw query, the rollup-backed query, and when they agree. */
module Series {
  import opened Samples
  import opened Rollups
  import opened Slots

  datatype SeriesBucket = SeriesBucket(ts: nat, avg: Option<real>, lo: Option<nat>, hi: Option<nat>, count: nat,
                                       upRatio: real)

  // ── Aggregating the rows of the rollup table ────────────────────────────────

  /** The table rows of one monitor with `lo <= bucket_epoch < hi` that `p` selects. */
  function TableRows(t: Table, m: int, lo: nat, hi: nat, p: nat -> bool): seq<Agg>
    decreases hi
  {
    if hi <= lo then [] else
      var rest := TableRows(t, m, lo, hi - 1, p);
      if p(hi - 1) && Key(m, hi - 1) in t then rest + [t[Key(m, hi - 1)]] else rest
  }

  function Any(): nat -> bool { (b: nat) => true }

  /** SUM, SUM, SUM, MIN, MAX over selected table rows. */
  function JoinAll(aggs: seq<Agg>): Agg {
    if aggs == [] then NOTHING else Join(JoinAll(aggs[..|aggs| - 1]), aggs[|aggs| - 1])
  }

  /** The raw rows behind those table rows. */
  function Behind(t: Table, m: int, lo: nat, hi: nat, p: nat -> bool): Row -> bool {
    (r: Row) => r.monitor == Some(m) && lo <= Minute(r.at) < hi && p(Minute(r.at)) && Key(m, Minute(r.at)) in t
  }

  /** Every table row of the monitor in the range is the aggregate of its minute. */
  ghost predicate Faithful(raw: seq<Row>, t: Table, m: int, lo: nat, hi: nat) {
    forall b :: lo <= b < hi && Key(m, b) in t ==>
                  t[Key(m, b)] == Aggregate(raw, InMinute(m, b)) && HasRows(raw, m, b)
  }

  /** An aggregate of minute aggregates is the aggregate of the rows themselves. */
  lemma {:induction false} Regroup(raw: seq<Row>, t: Table, m: int, lo: nat, hi: nat, p: nat -> bool)
    requires Faithful(raw, t, m, lo, hi)
    ensures JoinAll(TableRows(t, m, lo, hi, p)) == Aggregate(raw, Behind(t, m, lo, hi, p))
    ensures TableRows(t, m, lo, hi, p) == [] <==> JoinAll(TableRows(t, m, lo, hi, p)).count == 0
    decreases hi
  {
    var all := Behind(t, m, lo, hi, p);
    if hi <= lo {
      AggregateNone(raw, all);
    } else {
      var b := hi - 1;
      var rest := TableRows(t, m, lo, b, p);
      var before := Behind(t, m, lo, b, p);
      Regroup(raw, t, m, lo, b, p);
      if p(b) && Key(m, b) in t {
        AggregateUnion(raw, before, InMinute(m, b), all);
        AggregateNone(raw, all);
        assert (rest + [t[Key(m, b)]])[..|rest|] == rest;
        var r :| r in raw && InMinute(m, b)(r);
        assert all(r);
      } else {
        AggregateCong(raw, before, all);
      }
    }
  }

  // ── The raw query ───────────────────────────────────────────────────────────

  function SpanMs(fromMs: nat, toMs: nat): nat { if toMs > fromMs then toMs - fromMs else 1 }

  function RawSlot(m: int, fromMs: nat, toMs: nat, n: nat, i: nat): Row -> bool
    requires n > 0
  {
    (r: Row) => r.monitor == Some(m) && fromMs <= r.at <= toMs && Slot(r.at - fromMs, SpanMs(fromMs, toMs), n) == i
  }

  /** Sum and number of the stored response times, 'up' or not: AVG's two parts. */
  function Times(rows: seq<Row>, p: Row -> bool): (nat, nat) {
    if rows == [] then (0, 0) else
      var rest := Times(rows[..|rows| - 1], p);
      var last := rows[|rows| - 1];
      if p(last) && last.ms.Some? then (rest.0 + last.ms.value, rest.1 + 1) else rest
  }

  function Ratio(a: nat, b: nat): real {
    if b > 0 then a as real / b as real else 0.0
  }

  function Mean(sum: nat, number: nat): Option<real> {
    if number > 0 then Some(sum as real / number as real) else None
  }

  function Stamp(fromMs: nat, toMs: nat, n: nat, i: nat): nat
    requires n > 0
  {
    var from, to := fromMs / 1000, toMs / 1000;
    from + i * (if to > from then to - from else 1) / n
  }

  function ToBucket(ts: nat, a: Agg, sum: nat, number: nat): SeriesBucket {
    SeriesBucket(ts, Mean(sum, number), a.lo, a.hi, a.count, Ratio(a.up, a.count))
  }

  function RawBucket(raw: seq<Row>, m: int, fromMs: nat, toMs: nat, n: nat, i: nat): SeriesBucket
    requires n > 0
  {
    var p := RawSlot(m, fromMs, toMs, n, i);
    var a, times := Aggregate(raw, p), Times(raw, p);
    ToBucket(Stamp(fromMs, toMs, n, i), a, times.0, times.1)
  }

  /** The non-empty groups among the first `k` slots, in order. */
  function RawSeries(raw: seq<Row>, m: int, fromMs: nat, toMs: nat, n: nat, k: nat): seq<SeriesBucket>
    requires n > 0
  {
    if k == 0 then [] else
      RawSeries(raw, m, fromMs, toMs, n, k - 1) +
      if Aggregate(raw, RawSlot(m, fromMs, toMs, n, k - 1)).count > 0
      then [RawBucket(raw, m, fromMs, toMs, n, k - 1)] else []
  }

  // ── The rollup-backed query ─────────────────────────────────────────────────

  function TableSlot(from: nat, span: nat, n: nat, i: nat): nat -> bool
    requires n > 0 && span > 0
  {
    (b: nat) => Slot(if b >= from then b - from else 0, span, n) == i
  }

  /** The table rows of slot `i`; both ends of the range are included. */
  function SlotRows(t: Table, m: int, fromMs: nat, toMs: nat, n: nat, i: nat): seq<Agg>
    requires n > 0 && fromMs / 1000 < toMs / 1000
  {
    var from, to := fromMs / 1000, toMs / 1000;
    TableRows(t, m, from, to + 1, TableSlot(from, to - from, n, i))
  }

  function RollupBucket(t: Table, m: int, fromMs: nat, toMs: nat, n: nat, i: nat): SeriesBucket
    requires n > 0 && fromMs / 1000 < toMs / 1000
  {
    var a := JoinAll(SlotRows(t, m, fromMs, toMs, n, i));
    ToBucket(Stamp(fromMs, toMs, n, i), a, a.sum, a.up)
  }

  function RollupSeries(t: Table, m: int, fromMs: nat, toMs: nat, n: nat, k: nat): seq<SeriesBucket>
    requires n > 0 && fromMs / 1000 < toMs / 1000
  {
    if k == 0 then [] else
      RollupSeries(t, m, fromMs, toMs, n, k - 1) +
      if SlotRows(t, m, fromMs, toMs, n, k - 1) != []
      then [RollupBucket(t, m, fromMs, toMs, n, k - 1)] else []
  }

  // ── get_series ──────────────────────────────────────────────────────────────

  /** Each slot covers at least a minute, so the rollup may answer. */
  predicate Coarse(fromMs: nat, toMs: nat, n: nat)
    requires n > 0
  {
    var from, to := fromMs / 1000, toMs / 1000;
    (if to > from then to - from else 1) / n >= 60
  }

  function SeriesAnswer(raw: seq<Row>, t: Table, m: int, fromMs: nat, toMs: nat, n: nat): seq<SeriesBucket>
    requires n > 0
  {
    if Coarse(fromMs, toMs, n) && RollupSeries(t, m, fromMs, toMs, n, n) != []
    then RollupSeries(t, m, fromMs, toMs, n, n)
    else RawSeries(raw, m, fromMs, toMs, n, n)
  }

  method GetSeries(raw: seq<Row>, t: Table, m: int, fromMs: nat, toMs: nat,
                   buckets: int)
    returns (out: seq<SeriesBucket>)
    ensures var n := if buckets < 1 then 1 else if buckets > 5000 then 5000 else buckets;
            out == SeriesAnswer(raw, t, m, fromMs, toMs, n)
  {
    var n := if buckets < 1 then 1 else if buckets > 5000 then 5000 else buckets;
    var from, to := fromMs / 1000, toMs / 1000;
    var span := if to > from then to - from else 1;
    if span / n >= 60 {
      out := GetSeriesRollup(t, m, fromMs, toMs, n);
      if out != [] {
        return;
      }
    }
    out := [];
    for i := 0 to n
      invariant out == RawSeries(raw, m, fromMs, toMs, n, i)
    {
      var p := RawSlot(m, fromMs, toMs, n, i);
      var a, times := Aggregate(raw, p), Times(raw, p);
      if a.count > 0 {
        out := out + [ToBucket(Stamp(fromMs, toMs, n, i), a, times.0, times.1)];
      }
    }
  }

  method GetSeriesRollup(t: Table, m: int, fromMs: nat, toMs: nat, n: nat) returns (out: seq<SeriesBucket>)
    requires n > 0 && fromMs / 1000 < toMs / 1000
    ensures out == RollupSeries(t, m, fromMs, toMs, n, n)
  {
    out := [];
    for i := 0 to n
      invariant out == RollupSeries(t, m, fromMs, toMs, n, i)
    {
      var rows := SlotRows(t, m, fromMs, toMs, n, i);
      if rows != [] {
        var a := JoinAll(rows);
        out := out + [ToBucket(Stamp(fromMs, toMs, n, i), a, a.sum, a.up)];
      }
    }
  }

  // ── The two series against each other ───────────────────────────────────────

  /** Whole minutes at both ends, and `n` slots of `width` seconds, a number of whole minutes. */
  predicate WholeRange(from: nat, to: nat, n: nat, width: nat) {
    from % 60 == 0 && from < to && WholeMinuteSlots(to - from, n, width)
  }

  /** A range of whole minutes, table rows that are their minutes' aggregates, and
      response times exactly on the 'up' rows.  Minutes may be missing from the table. */
  ghost predicate Gradual(raw: seq<Row>, t: Table, m: int, from: nat, to: nat, n: nat, width: nat) {
    && WholeRange(from, to, n, width)
    && Faithful(raw, t, m, from, to + 1)
    && (forall r :: r in raw && r.monitor == Some(m) ==> (r.up <==> r.ms.Some?))
  }

  /** The same with a table that is right about every minute touched. */
  ghost predicate Comparable(raw: seq<Row>, t: Table, m: int, from: nat, to: nat, n: nat, width: nat) {
    && WholeRange(from, to, n, width)
    && (forall b :: from <= b <= to ==> Coherent(raw, t, m, b))
    && (forall r :: r in raw && r.monitor == Some(m) ==> (r.up <==> r.ms.Some?))
  }

  /** Rows of the minute that starts at `to`, stamped after `to` itself. */
  function Overhang(m: int, to: nat): Row -> bool {
    (r: Row) => r.monitor == Some(m) && to * 1000 < r.at < (to + 60) * 1000
  }

  ghost predicate HasOverhang(raw: seq<Row>, m: int, to: nat) {
    exists r :: r in raw && Overhang(m, to)(r)
  }

  /** The overhanging rows, when that minute has been rolled and slot `i` is the last one. */
  function Extra(t: Table, m: int, to: nat, last: bool): Row -> bool {
    (r: Row) => last && Key(m, to) in t && r.monitor == Some(m) && to * 1000 < r.at < (to + 60) * 1000
  }

  /** The raw rows of slot `i` whose minute has not been rolled. */
  function Unrolled(t: Table, m: int, from: nat, to: nat, n: nat, i: nat): Row -> bool
    requires n > 0
  {
    (r: Row) => RawSlot(m, from * 1000, to * 1000, n, i)(r) && Key(m, Minute(r.at)) !in t
  }

  /** Every row of the range has been rolled. */
  ghost predicate AllRolled(raw: seq<Row>, t: Table, m: int, from: nat, to: nat) {
    forall r :: r in raw && r.monitor == Some(m) && from * 1000 <= r.at <= to * 1000 ==> Key(m, Minute(r.at)) in t
  }

  /** With response times exactly on the 'up' rows, AVG's parts are the rollup's. */
  lemma {:induction false} TimesOfUpRows(rows: seq<Row>, p: Row -> bool)
    requires forall r :: r in rows && p(r) ==> (r.up <==> r.ms.Some?)
    ensures Times(rows, p) == (Aggregate(rows, p).sum, Aggregate(rows, p).up)
  {
    if rows != [] {
      TimesOfUpRows(rows[..|rows| - 1], p);
    }
  }

  lemma RawSlotAt(m: int, from: nat, to: nat, n: nat, i: nat, r: Row)
    requires n > 0 && from < to
    ensures RawSlot(m, from * 1000, to * 1000, n, i)(r) <==>
            && r.monitor == Some(m) && from * 1000 <= r.at <= to * 1000
            && Slot(r.at - from * 1000, (to - from) * 1000, n) == i
  {
    assert SpanMs(from * 1000, to * 1000) == (to - from) * 1000;
  }

  lemma WholeEnd(from: nat, to: nat)
    requires from % 60 == 0 && from <= to && (to - from) % 60 == 0
    ensures to % 60 == 0
  {
  }

  /** The stamps whose minutes the rollup query takes in. */
  lemma MinutesOfRange(at: nat, from: nat, to: nat)
    requires from % 60 == 0 && to % 60 == 0
    ensures from <= Minute(at) <= to <==> from * 1000 <= at < (to + 60) * 1000
  {
    MinuteInRange(at, from, to + 60);
    MinuteInRange(at, to, to + 60);
    MinuteFacts(at);
  }

  /** Both queries put a stamp in the same slot up to `to`; then it is the last one. */
  lemma SlotsOfStamp(at: nat, from: nat, to: nat, n: nat, width: nat)
    requires from % 60 == 0 && to % 60 == 0 && from < to && WholeMinuteSlots(to - from, n, width)
    requires from * 1000 <= at < (to + 60) * 1000
    ensures from <= Minute(at)
    ensures if at <= to * 1000
            then Slot(at - from * 1000, (to - from) * 1000, n) == Slot(Minute(at) - from, to - from, n)
            else Slot(Minute(at) - from, to - from, n) == n - 1
  {
    if at <= to * 1000 {
      AlignedSlots(at, from, to - from, n, width);
    } else {
      OverhangSlot(at, from, to, n);
    }
  }

  /** A raw row stands behind the table rows of slot `i`, or is an unrolled row of the
      slot, exactly when the raw query puts it in slot `i`, or it is a rolled row
      that overhangs the range and `i` is the last slot; and never both. */
  lemma SameSlot(t: Table, m: int, from: nat, to: nat, n: nat, width: nat, i: nat, r: Row)
    requires WholeRange(from, to, n, width)
    ensures var behind := Behind(t, m, from, to + 1, TableSlot(from, to - from, n, i))(r);
            var unrolled := Unrolled(t, m, from, to, n, i)(r);
            var slot, extra := RawSlot(m, from * 1000, to * 1000, n, i)(r), Extra(t, m, to, i == n - 1)(r);
            && (behind || unrolled <==> slot || extra)
            && !(behind && unrolled) && !(slot && extra)
  {
    RawSlotAt(m, from, to, n, i, r);
    SpanOfSlots(to - from, n, width);
    WholeEnd(from, to);
    MinutesOfRange(r.at, from, to);
    if from * 1000 <= r.at < (to + 60) * 1000 {
      SlotsOfStamp(r.at, from, to, n, width);
      if r.at > to * 1000 {
        OverhangMinute(r.at, to);
      }
    }
  }

  /** Table rows and the rows of `b` are together the rows of `c` and those of `d`; the
      table rows are none exactly when they count none. */
  ghost predicate Balances(raw: seq<Row>, rows: seq<Agg>, b: Row -> bool, c: Row -> bool, d: Row -> bool) {
    && Join(JoinAll(rows), Aggregate(raw, b)) == Join(Aggregate(raw, c), Aggregate(raw, d))
    && (rows == [] <==> JoinAll(rows).count == 0)
  }

  /** The sum over selected table rows is one part of a split of the raw rows. */
  lemma GroupedSum(raw: seq<Row>, t: Table, m: int, lo: nat, hi: nat, p: nat -> bool, b: Row -> bool, c: Row -> bool,
                   d: Row -> bool)
    requires Faithful(raw, t, m, lo, hi) && TwoSplits(raw, Behind(t, m, lo, hi, p), b, c, d)
    ensures Balances(raw, TableRows(t, m, lo, hi, p), b, c, d)
  {
    Regroup(raw, t, m, lo, hi, p);
    AggregateTwoSplits(raw, Behind(t, m, lo, hi, p), b, c, d);
  }

  lemma SlotSplits(raw: seq<Row>, t: Table, m: int, from: nat, to: nat, n: nat, width: nat, i: nat)
    requires WholeRange(from, to, n, width)
    ensures TwoSplits(raw, Behind(t, m, from, to + 1, TableSlot(from, to - from, n, i)), Unrolled(t, m, from, to, n, i),
                      RawSlot(m, from * 1000, to * 1000, n, i), Extra(t, m, to, i == n - 1))
  {
    forall r | r in raw
      ensures TwoSplits([r], Behind(t, m, from, to + 1, TableSlot(from, to - from, n, i)),
                        Unrolled(t, m, from, to, n, i),
                        RawSlot(m, from * 1000, to * 1000, n, i), Extra(t, m, to, i == n - 1))
    {
      SameSlot(t, m, from, to, n, width, i, r);
    }
  }

  /** Conservation, slot for slot: what the table rows count and what is not rolled
      yet are together the raw rows of the slot, and in the last slot the rolled
      overhang. */
  lemma SlotSum(raw: seq<Row>, t: Table, m: int, from: nat, to: nat, n: nat, width: nat, i: nat)
    requires WholeRange(from, to, n, width) && Faithful(raw, t, m, from, to + 1)
    ensures Balances(raw, TableRows(t, m, from, to + 1, TableSlot(from, to - from, n, i)),
                     Unrolled(t, m, from, to, n, i),
                     RawSlot(m, from * 1000, to * 1000, n, i), Extra(t, m, to, i == n - 1))
  {
    SlotSplits(raw, t, m, from, to, n, width, i);
    GroupedSum(raw, t, m, from, to + 1, TableSlot(from, to - from, n, i), Unrolled(t, m, from, to, n, i),
               RawSlot(m, from * 1000, to * 1000, n, i), Extra(t, m, to, i == n - 1));
  }

  lemma SlotTimes(raw: seq<Row>, t: Table, m: int, from: nat, to: nat, n: nat, width: nat, i: nat)
    requires Gradual(raw, t, m, from, to, n, width)
    ensures var p := RawSlot(m, from * 1000, to * 1000, n, i);
            Times(raw, p) == (Aggregate(raw, p).sum, Aggregate(raw, p).up)
  {
    forall r | r in raw && RawSlot(m, from * 1000, to * 1000, n, i)(r)
      ensures r.up <==> r.ms.Some?
    {
      RawSlotAt(m, from, to, n, i, r);
    }
    TimesOfUpRows(raw, RawSlot(m, from * 1000, to * 1000, n, i));
  }

  lemma ExtraCount(raw: seq<Row>, t: Table, m: int, to: nat, last: bool)
    ensures if HasOverhang(raw, m, to) && Key(m, to) in t && last then Aggregate(raw, Extra(t, m, to, last)).count > 0
            else Aggregate(raw, Extra(t, m, to, last)) == NOTHING
  {
    AggregateNone(raw, Extra(t, m, to, last));
    if HasOverhang(raw, m, to) && Key(m, to) in t && last {
      var r :| r in raw && Overhang(m, to)(r);
      assert Extra(t, m, to, last)(r);
    } else {
      assert forall r :: r in raw && Extra(t, m, to, last)(r) ==> Overhang(m, to)(r);
    }
  }

  lemma SlotRowsAt(t: Table, m: int, from: nat, to: nat, n: nat, i: nat)
    requires n > 0 && from < to
    ensures SlotRows(t, m, from * 1000, to * 1000, n, i) ==
            TableRows(t, m, from, to + 1, TableSlot(from, to - from, n, i))
  {
  }

  /** Slot for slot, over a range that has been rolled, the table rows of a slot add
      up to its raw rows, plus the rolled overhang in the last slot. */
  lemma SlotAgrees(raw: seq<Row>, t: Table, m: int, from: nat, to: nat, n: nat, width: nat, i: nat)
    requires Gradual(raw, t, m, from, to, n, width) && AllRolled(raw, t, m, from, to) && i < n
    ensures var rows := SlotRows(t, m, from * 1000, to * 1000, n, i);
            var a := Aggregate(raw, RawSlot(m, from * 1000, to * 1000, n, i));
            && (rows == [] <==> JoinAll(rows).count == 0)
            && if HasOverhang(raw, m, to) && Key(m, to) in t && i == n - 1 then JoinAll(rows).count > a.count
               else JoinAll(rows) == a
  {
    var unrolled, slot := Unrolled(t, m, from, to, n, i), RawSlot(m, from * 1000, to * 1000, n, i);
    var extra := Extra(t, m, to, i == n - 1);
    assert Balances(raw, SlotRows(t, m, from * 1000, to * 1000, n, i), unrolled, slot, extra) by {
      SlotRowsAt(t, m, from, to, n, i);
      SlotSum(raw, t, m, from, to, n, width, i);
    }
    assert Aggregate(raw, unrolled) == NOTHING by {
      NothingUnrolled(raw, t, m, from, to, n, i);
    }
    BalanceWithout(raw, SlotRows(t, m, from * 1000, to * 1000, n, i), unrolled, slot, extra);
    ExtraCount(raw, t, m, to, i == n - 1);
  }

  /** A balance in which `b` selects nothing. */
  lemma BalanceWithout(raw: seq<Row>, rows: seq<Agg>, b: Row -> bool, c: Row -> bool, d: Row -> bool)
    requires Balances(raw, rows, b, c, d) && Aggregate(raw, b) == NOTHING
    ensures rows == [] <==> JoinAll(rows).count == 0
    ensures Aggregate(raw, d) == NOTHING ==> JoinAll(rows) == Aggregate(raw, c)
    ensures Aggregate(raw, d).count > 0 ==> JoinAll(rows).count > Aggregate(raw, c).count
  {
    JoinNothing(JoinAll(rows));
    JoinNothing(Aggregate(raw, c));
  }

  lemma NothingUnrolled(raw: seq<Row>, t: Table, m: int, from: nat, to: nat, n: nat, i: nat)
    requires n > 0 && from < to && AllRolled(raw, t, m, from, to)
    ensures Aggregate(raw, Unrolled(t, m, from, to, n, i)) == NOTHING
  {
    forall r | r in raw
      ensures !Unrolled(t, m, from, to, n, i)(r)
    {
      RawSlotAt(m, from, to, n, i, r);
    }
    AggregateNone(raw, Unrolled(t, m, from, to, n, i));
  }

  lemma {:induction false} SeriesPrefixAgrees(raw: seq<Row>, t: Table, m: int, from: nat, to: nat, n: nat,
                                              width: nat, j: nat)
    requires Gradual(raw, t, m, from, to, n, width) && AllRolled(raw, t, m, from, to) && j <= n
    requires j == n ==> !(HasOverhang(raw, m, to) && Key(m, to) in t)
    ensures RollupSeries(t, m, from * 1000, to * 1000, n, j) == RawSeries(raw, m, from * 1000, to * 1000, n, j)
  {
    if j > 0 {
      SeriesPrefixAgrees(raw, t, m, from, to, n, width, j - 1);
      SlotAgrees(raw, t, m, from, to, n, width, j - 1);
      SlotTimes(raw, t, m, from, to, n, width, j - 1);
    }
  }

  /** Slots of a minute or more: the rollup answers whenever it has rows. */
  lemma AnswerIsRollup(raw: seq<Row>, t: Table, m: int, from: nat, to: nat, n: nat, width: nat)
    requires from < to && WholeMinuteSlots(to - from, n, width)
    ensures var fast := RollupSeries(t, m, from * 1000, to * 1000, n, n);
            SeriesAnswer(raw, t, m, from * 1000, to * 1000, n) ==
            if fast != [] then fast else RawSeries(raw, m, from * 1000, to * 1000, n, n)
  {
    SpanOfSlots(to - from, n, width);
    SlotIsMinutes(width);
    assert Coarse(from * 1000, to * 1000, n);
  }

  lemma SlotIsMinutes(width: nat)
    requires width > 0 && width % 60 == 0
    ensures width >= 60
  {
  }

  /** Over a range that has been rolled, answering from the rollup keeps the chart
      bucket for bucket exactly when no rolled row overhangs the range. */
  lemma RolledRangeServes(raw: seq<Row>, t: Table, m: int, from: nat, to: nat, n: nat, width: nat)
    requires Gradual(raw, t, m, from, to, n, width) && AllRolled(raw, t, m, from, to)
    ensures SeriesAnswer(raw, t, m, from * 1000, to * 1000, n) == RawSeries(raw, m, from * 1000, to * 1000, n, n) <==>
            !(HasOverhang(raw, m, to) && Key(m, to) in t)
  {
    AnswerIsRollup(raw, t, m, from, to, n, width);
    if HasOverhang(raw, m, to) && Key(m, to) in t {
      OverhangShows(raw, t, m, from, to, n, width);
    } else {
      SeriesPrefixAgrees(raw, t, m, from, to, n, width, n);
    }
  }

  /** Where the table is right, answering from the rollup keeps the chart bucket for
      bucket (stamps, counts, up-ratios, averages, minima and maxima) exactly when
      no row is stamped inside the minute that starts at `to`, after `to` itself. */
  lemma RollupServesTheRawSeries(raw: seq<Row>, t: Table, m: int, from: nat, to: nat, n: nat, width: nat)
    requires Comparable(raw, t, m, from, to, n, width)
    ensures SeriesAnswer(raw, t, m, from * 1000, to * 1000, n) == RawSeries(raw, m, from * 1000, to * 1000, n, n) <==>
            !HasOverhang(raw, m, to)
  {
    ComparableIsRolled(raw, t, m, from, to, n, width);
    RolledRangeServes(raw, t, m, from, to, n, width);
  }

  lemma ComparableIsRolled(raw: seq<Row>, t: Table, m: int, from: nat, to: nat, n: nat, width: nat)
    requires Comparable(raw, t, m, from, to, n, width)
    ensures Gradual(raw, t, m, from, to, n, width) && AllRolled(raw, t, m, from, to)
    ensures HasOverhang(raw, m, to) ==> Key(m, to) in t
  {
    SpanOfSlots(to - from, n, width);
    WholeEnd(from, to);
    forall b | from <= b <= to && Key(m, b) in t
      ensures t[Key(m, b)] == Aggregate(raw, InMinute(m, b)) && HasRows(raw, m, b)
    {
      assert Coherent(raw, t, m, b);
    }
    forall r | r in raw && r.monitor == Some(m) && from * 1000 <= r.at < (to + 60) * 1000
      ensures Key(m, Minute(r.at)) in t
    {
      MinutesOfRange(r.at, from, to);
      assert Coherent(raw, t, m, Minute(r.at)) && InMinute(m, Minute(r.at))(r);
    }
    if HasOverhang(raw, m, to) {
      var r :| r in raw && Overhang(m, to)(r);
      OverhangMinute(r.at, to);
    }
  }

  lemma OverhangShows(raw: seq<Row>, t: Table, m: int, from: nat, to: nat, n: nat, width: nat)
    requires Gradual(raw, t, m, from, to, n, width) && AllRolled(raw, t, m, from, to)
    requires HasOverhang(raw, m, to) && Key(m, to) in t
    ensures var fast := RollupSeries(t, m, from * 1000, to * 1000, n, n);
            fast != [] && fast != RawSeries(raw, m, from * 1000, to * 1000, n, n)
  {
    var fast, slow := RollupSeries(t, m, from * 1000, to * 1000, n, n), RawSeries(raw, m, from * 1000, to * 1000, n, n);
    SeriesPrefixAgrees(raw, t, m, from, to, n, width, n - 1);
    SlotAgrees(raw, t, m, from, to, n, width, n - 1);
    var common := RollupSeries(t, m, from * 1000, to * 1000, n, n - 1);
    assert fast == common + [RollupBucket(t, m, from * 1000, to * 1000, n, n - 1)];
    if |slow| == |fast| {
      assert slow == common + [RawBucket(raw, m, from * 1000, to * 1000, n, n - 1)];
      assert fast[|common|].count != slow[|common|].count;
    }
  }
}
