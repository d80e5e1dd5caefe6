/** Conservation: what the two series count, also while the rollup is behind. */
module SeriesCounts {
  import opened Samples
  import opened Rollups
  import opened Slots
  import opened Series

  function TotalCount(series: seq<SeriesBucket>): nat {
    if series == [] then 0 else TotalCount(series[..|series| - 1]) + series[|series| - 1].count
  }

  /** Rows of the range that fall in one of the first `k` slots. */
  function SlotsBelow(m: int, fromMs: nat, toMs: nat, n: nat, k: nat): Row -> bool
    requires n > 0
  {
    (r: Row) => r.monitor == Some(m) && fromMs <= r.at <= toMs && Slot(r.at - fromMs, SpanMs(fromMs, toMs), n) < k
  }

  lemma TotalAppend(series: seq<SeriesBucket>, b: SeriesBucket)
    ensures TotalCount(series + [b]) == TotalCount(series) + b.count
  {
    assert (series + [b])[..|series|] == series;
  }

  lemma NextSlot(raw: seq<Row>, m: int, fromMs: nat, toMs: nat, n: nat, k: nat)
    requires n > 0
    ensures Aggregate(raw, SlotsBelow(m, fromMs, toMs, n, k + 1)).count ==
            Aggregate(raw, SlotsBelow(m, fromMs, toMs, n, k)).count +
              Aggregate(raw, RawSlot(m, fromMs, toMs, n, k)).count
  {
    forall r | r in raw
      ensures SlotsBelow(m, fromMs, toMs, n, k + 1)(r) <==>
              SlotsBelow(m, fromMs, toMs, n, k)(r) || RawSlot(m, fromMs, toMs, n, k)(r)
      ensures !(SlotsBelow(m, fromMs, toMs, n, k)(r) && RawSlot(m, fromMs, toMs, n, k)(r))
    {
      OneSlot(m, fromMs, toMs, n, k, r);
    }
    AggregateUnion(raw, SlotsBelow(m, fromMs, toMs, n, k), RawSlot(m, fromMs, toMs, n, k),
                   SlotsBelow(m, fromMs, toMs, n, k + 1));
  }

  lemma NextTotal(raw: seq<Row>, m: int, fromMs: nat, toMs: nat, n: nat, k: nat)
    requires n > 0
    ensures TotalCount(RawSeries(raw, m, fromMs, toMs, n, k + 1)) ==
            TotalCount(RawSeries(raw, m, fromMs, toMs, n, k)) + Aggregate(raw, RawSlot(m, fromMs, toMs, n, k)).count
  {
    var rest, b := RawSeries(raw, m, fromMs, toMs, n, k), RawBucket(raw, m, fromMs, toMs, n, k);
    assert b.count == Aggregate(raw, RawSlot(m, fromMs, toMs, n, k)).count;
    if b.count > 0 {
      assert RawSeries(raw, m, fromMs, toMs, n, k + 1) == rest + [b];
      TotalAppend(rest, b);
    } else {
      assert RawSeries(raw, m, fromMs, toMs, n, k + 1) == rest + [];
      assert rest + [] == rest;
    }
  }

  lemma {:induction false} PrefixCounts(raw: seq<Row>, m: int, fromMs: nat, toMs: nat, n: nat, k: nat)
    requires n > 0
    ensures TotalCount(RawSeries(raw, m, fromMs, toMs, n, k)) == Aggregate(raw, SlotsBelow(m, fromMs, toMs, n, k)).count
  {
    if k == 0 {
      NothingBelowFirst(raw, m, fromMs, toMs, n);
    } else {
      PrefixCounts(raw, m, fromMs, toMs, n, k - 1);
      NextPrefix(raw, m, fromMs, toMs, n, k - 1);
    }
  }

  lemma NothingBelowFirst(raw: seq<Row>, m: int, fromMs: nat, toMs: nat, n: nat)
    requires n > 0
    ensures Aggregate(raw, SlotsBelow(m, fromMs, toMs, n, 0)).count == 0
  {
    assert forall r :: r in raw ==> !SlotsBelow(m, fromMs, toMs, n, 0)(r);
    AggregateNone(raw, SlotsBelow(m, fromMs, toMs, n, 0));
  }

  lemma NextPrefix(raw: seq<Row>, m: int, fromMs: nat, toMs: nat, n: nat, k: nat)
    requires n > 0
    ensures TotalCount(RawSeries(raw, m, fromMs, toMs, n, k + 1)) - TotalCount(RawSeries(raw, m, fromMs, toMs, n, k)) ==
            Aggregate(raw, SlotsBelow(m, fromMs, toMs, n, k + 1)).count
            - Aggregate(raw, SlotsBelow(m, fromMs, toMs, n, k)).count
  {
    NextSlot(raw, m, fromMs, toMs, n, k);
    NextTotal(raw, m, fromMs, toMs, n, k);
  }

  /** The raw series counts every row of the range in exactly one bucket. */
  lemma SeriesCountsEveryRow(raw: seq<Row>, m: int, fromMs: nat, toMs: nat, n: nat, all: Row -> bool)
    requires n > 0
    requires forall r :: all(r) <==> r.monitor == Some(m) && fromMs <= r.at <= toMs
    ensures TotalCount(RawSeries(raw, m, fromMs, toMs, n, n)) == Aggregate(raw, all).count
  {
    PrefixCounts(raw, m, fromMs, toMs, n, n);
    AggregateCong(raw, all, SlotsBelow(m, fromMs, toMs, n, n));
  }

  // ── A range that is only partly rolled ──────────────────────────────────────

  /** The unrolled rows of the first `k` slots. */
  function UnrolledBelow(t: Table, m: int, from: nat, to: nat, n: nat, k: nat): Row -> bool
    requires n > 0
  {
    (r: Row) => SlotsBelow(m, from * 1000, to * 1000, n, k)(r) && Key(m, Minute(r.at)) !in t
  }

  /** The rows of the range whose minute has not been rolled. */
  function UnrolledIn(t: Table, m: int, from: nat, to: nat): Row -> bool {
    (r: Row) => r.monitor == Some(m) && from * 1000 <= r.at <= to * 1000 && Key(m, Minute(r.at)) !in t
  }

  lemma NextUnrolled(raw: seq<Row>, t: Table, m: int, from: nat, to: nat, n: nat, k: nat)
    requires n > 0
    ensures Aggregate(raw, UnrolledBelow(t, m, from, to, n, k + 1)).count ==
            Aggregate(raw, UnrolledBelow(t, m, from, to, n, k)).count +
              Aggregate(raw, Unrolled(t, m, from, to, n, k)).count
  {
    var below, next := UnrolledBelow(t, m, from, to, n, k), UnrolledBelow(t, m, from, to, n, k + 1);
    var slot := Unrolled(t, m, from, to, n, k);
    forall r | r in raw
      ensures !(below(r) && slot(r)) && (next(r) <==> below(r) || slot(r))
    {
      OneSlot(m, from * 1000, to * 1000, n, k, r);
    }
    AggregateUnion(raw, below, slot, next);
  }

  lemma OneSlot(m: int, fromMs: nat, toMs: nat, n: nat, k: nat, r: Row)
    requires n > 0
    ensures !(SlotsBelow(m, fromMs, toMs, n, k)(r) && RawSlot(m, fromMs, toMs, n, k)(r))
    ensures SlotsBelow(m, fromMs, toMs, n, k + 1)(r) <==>
            SlotsBelow(m, fromMs, toMs, n, k)(r) || RawSlot(m, fromMs, toMs, n, k)(r)
  {
  }

  lemma SomeSlot(m: int, fromMs: nat, toMs: nat, n: nat, r: Row)
    requires n > 0
    ensures SlotsBelow(m, fromMs, toMs, n, n)(r) <==> r.monitor == Some(m) && fromMs <= r.at <= toMs
  {
  }

  lemma NextRollupTotal(t: Table, m: int, fromMs: nat, toMs: nat, n: nat, k: nat)
    requires n > 0 && fromMs / 1000 < toMs / 1000
    requires SlotRows(t, m, fromMs, toMs, n, k) == [] ==> JoinAll(SlotRows(t, m, fromMs, toMs, n, k)).count == 0
    ensures TotalCount(RollupSeries(t, m, fromMs, toMs, n, k + 1)) ==
            TotalCount(RollupSeries(t, m, fromMs, toMs, n, k)) + JoinAll(SlotRows(t, m, fromMs, toMs, n, k)).count
  {
    var rest := RollupSeries(t, m, fromMs, toMs, n, k);
    if SlotRows(t, m, fromMs, toMs, n, k) != [] {
      TotalAppend(rest, RollupBucket(t, m, fromMs, toMs, n, k));
    } else {
      assert rest + [] == rest;
    }
  }

  /** What slot `k` adds to both sides of the balance. */
  lemma SlotBalance(raw: seq<Row>, t: Table, m: int, from: nat, to: nat, n: nat, width: nat, k: nat)
    requires Gradual(raw, t, m, from, to, n, width) && k < n
    ensures TotalCount(RollupSeries(t, m, from * 1000, to * 1000, n, k + 1))
            - TotalCount(RollupSeries(t, m, from * 1000, to * 1000, n, k))
            + Aggregate(raw, UnrolledBelow(t, m, from, to, n, k + 1)).count
            - Aggregate(raw, UnrolledBelow(t, m, from, to, n, k)).count ==
            TotalCount(RawSeries(raw, m, from * 1000, to * 1000, n, k + 1))
            - TotalCount(RawSeries(raw, m, from * 1000, to * 1000, n, k))
            + Aggregate(raw, Extra(t, m, to, k == n - 1)).count
  {
    SlotRowsAt(t, m, from, to, n, k);
    SlotSum(raw, t, m, from, to, n, width, k);
    NextUnrolled(raw, t, m, from, to, n, k);
    NextTotal(raw, m, from * 1000, to * 1000, n, k);
    NextRollupTotal(t, m, from * 1000, to * 1000, n, k);
  }

  /** What the two sides of the balance hold after `k` slots. */
  ghost predicate Balanced(raw: seq<Row>, t: Table, m: int, from: nat, to: nat, n: nat, k: nat)
    requires n > 0 && from < to
  {
    TotalCount(RollupSeries(t, m, from * 1000, to * 1000, n, k)) +
      Aggregate(raw, UnrolledBelow(t, m, from, to, n, k)).count ==
    TotalCount(RawSeries(raw, m, from * 1000, to * 1000, n, k)) + Aggregate(raw, Extra(t, m, to, k == n)).count
  }

  lemma NothingBelow(raw: seq<Row>, t: Table, m: int, from: nat, to: nat, n: nat)
    requires n > 0 && from < to
    ensures Balanced(raw, t, m, from, to, n, 0)
  {
    forall r | r in raw
      ensures !UnrolledBelow(t, m, from, to, n, 0)(r)
    {
      assert !SlotsBelow(m, from * 1000, to * 1000, n, 0)(r);
    }
    AggregateNone(raw, UnrolledBelow(t, m, from, to, n, 0));
    ExtraCount(raw, t, m, to, false);
  }

  lemma NextBalance(raw: seq<Row>, t: Table, m: int, from: nat, to: nat, n: nat, width: nat, k: nat)
    requires Gradual(raw, t, m, from, to, n, width) && k < n && Balanced(raw, t, m, from, to, n, k)
    ensures Balanced(raw, t, m, from, to, n, k + 1)
  {
    SlotBalance(raw, t, m, from, to, n, width, k);
    ExtraCount(raw, t, m, to, false);
  }

  lemma {:induction false} PrefixBalance(raw: seq<Row>, t: Table, m: int, from: nat, to: nat, n: nat, width: nat,
                                         k: nat)
    requires Gradual(raw, t, m, from, to, n, width) && k <= n
    ensures Balanced(raw, t, m, from, to, n, k)
  {
    if k == 0 {
      NothingBelow(raw, t, m, from, to, n);
    } else {
      PrefixBalance(raw, t, m, from, to, n, width, k - 1);
      NextBalance(raw, t, m, from, to, n, width, k - 1);
    }
  }

  /** While the rollup is behind, its series counts the raw rows of the range, less
      the unrolled ones, plus the rolled overhang. */
  lemma PartlyRolledCounts(raw: seq<Row>, t: Table, m: int, from: nat, to: nat, n: nat, width: nat)
    requires Gradual(raw, t, m, from, to, n, width)
    ensures TotalCount(RollupSeries(t, m, from * 1000, to * 1000, n, n)) +
            Aggregate(raw, UnrolledIn(t, m, from, to)).count ==
            TotalCount(RawSeries(raw, m, from * 1000, to * 1000, n, n)) + Aggregate(raw, Extra(t, m, to, true)).count
  {
    PrefixBalance(raw, t, m, from, to, n, width, n);
    forall r | r in raw
      ensures UnrolledIn(t, m, from, to)(r) == UnrolledBelow(t, m, from, to, n, n)(r)
    {
      SomeSlot(m, from * 1000, to * 1000, n, r);
    }
    AggregateCong(raw, UnrolledIn(t, m, from, to), UnrolledBelow(t, m, from, to, n, n));
  }

  /** No minute of the range is in the table. */
  ghost predicate NoneRolled(t: Table, m: int, from: nat, to: nat) {
    forall b :: from <= b <= to ==> Key(m, b) !in t
  }

  lemma {:induction false} NoRows(t: Table, m: int, lo: nat, hi: nat, p: nat -> bool)
    ensures TableRows(t, m, lo, hi, p) == [] <==> forall b :: lo <= b < hi && p(b) ==> Key(m, b) !in t
    decreases hi
  {
    if lo < hi {
      NoRows(t, m, lo, hi - 1, p);
    }
  }

  lemma {:induction false} EmptyPrefix(t: Table, m: int, fromMs: nat, toMs: nat, n: nat, k: nat)
    requires n > 0 && fromMs / 1000 < toMs / 1000
    ensures RollupSeries(t, m, fromMs, toMs, n, k) == [] <==>
            forall i :: 0 <= i < k ==> SlotRows(t, m, fromMs, toMs, n, i) == []
  {
    if k > 0 {
      EmptyPrefix(t, m, fromMs, toMs, n, k - 1);
    }
  }

  lemma EmptySlot(t: Table, m: int, from: nat, to: nat, n: nat, i: nat)
    requires n > 0 && from < to
    ensures SlotRows(t, m, from * 1000, to * 1000, n, i) == [] <==>
            forall b :: from <= b < to + 1 && TableSlot(from, to - from, n, i)(b) ==> Key(m, b) !in t
  {
    SlotRowsAt(t, m, from, to, n, i);
    NoRows(t, m, from, to + 1, TableSlot(from, to - from, n, i));
  }

  lemma RolledSlot(t: Table, m: int, from: nat, to: nat, n: nat, b: nat) returns (i: nat)
    requires n > 0 && from <= b <= to && from < to && Key(m, b) in t
    ensures i < n && SlotRows(t, m, from * 1000, to * 1000, n, i) != []
  {
    i := Slot(b - from, to - from, n);
    EmptySlot(t, m, from, to, n, i);
    assert TableSlot(from, to - from, n, i)(b);
  }

  lemma EmptyRollup(t: Table, m: int, from: nat, to: nat, n: nat)
    requires n > 0 && from < to
    ensures RollupSeries(t, m, from * 1000, to * 1000, n, n) == [] <==> NoneRolled(t, m, from, to)
  {
    EmptyPrefix(t, m, from * 1000, to * 1000, n, n);
    if NoneRolled(t, m, from, to) {
      forall i | 0 <= i < n
        ensures SlotRows(t, m, from * 1000, to * 1000, n, i) == []
      {
        EmptySlot(t, m, from, to, n, i);
      }
    } else {
      var b :| from <= b <= to && Key(m, b) in t;
      var i := RolledSlot(t, m, from, to, n, b);
    }
  }

  lemma MissingCounts(raw: seq<Row>, t: Table, m: int, from: nat, to: nat)
    ensures AllRolled(raw, t, m, from, to) <==> Aggregate(raw, UnrolledIn(t, m, from, to)).count == 0
  {
    AggregateNone(raw, UnrolledIn(t, m, from, to));
  }

  // ── Any whole-second range ──────────────────────────────────────────────────

  /** The rolled rows whose minute starts in the range. */
  function RolledIn(t: Table, m: int, from: nat, to: nat): Row -> bool {
    Behind(t, m, from, to + 1, Any())
  }

  /** Those of them in the first `k` slots of the rollup query. */
  function RolledBelow(t: Table, m: int, from: nat, to: nat, n: nat, k: nat): Row -> bool
    requires n > 0 && from < to
  {
    (r: Row) => RolledIn(t, m, from, to)(r) && Slot(Minute(r.at) - from, to - from, n) < k
  }

  lemma RolledInAt(t: Table, m: int, from: nat, to: nat, r: Row)
    ensures RolledIn(t, m, from, to)(r) <==>
            r.monitor == Some(m) && from <= Minute(r.at) <= to && Key(m, Minute(r.at)) in t
  {
    assert Any()(Minute(r.at));
  }

  lemma RolledBelowAt(t: Table, m: int, from: nat, to: nat, n: nat, k: nat, r: Row)
    requires n > 0 && from < to
    ensures RolledBelow(t, m, from, to, n, k)(r) <==>
            && r.monitor == Some(m) && from <= Minute(r.at) <= to && Key(m, Minute(r.at)) in t
            && Slot(Minute(r.at) - from, to - from, n) < k
  {
    RolledInAt(t, m, from, to, r);
  }

  lemma NextRolled(raw: seq<Row>, t: Table, m: int, from: nat, to: nat, n: nat, k: nat)
    requires n > 0 && from < to
    ensures Aggregate(raw, RolledBelow(t, m, from, to, n, k + 1)).count ==
            Aggregate(raw, RolledBelow(t, m, from, to, n, k)).count +
            Aggregate(raw, Behind(t, m, from, to + 1, TableSlot(from, to - from, n, k))).count
  {
    var below, slot := RolledBelow(t, m, from, to, n, k), Behind(t, m, from, to + 1, TableSlot(from, to - from, n, k));
    forall r | r in raw
      ensures !(below(r) && slot(r)) && (RolledBelow(t, m, from, to, n, k + 1)(r) <==> below(r) || slot(r))
    {
      RolledBelowAt(t, m, from, to, n, k, r);
      RolledBelowAt(t, m, from, to, n, k + 1, r);
      RolledInSlot(t, m, from, to, n, k, r);
    }
    AggregateUnion(raw, below, slot, RolledBelow(t, m, from, to, n, k + 1));
  }

  lemma RolledInSlot(t: Table, m: int, from: nat, to: nat, n: nat, k: nat, r: Row)
    requires n > 0 && from < to
    ensures Behind(t, m, from, to + 1, TableSlot(from, to - from, n, k))(r) <==>
            && r.monitor == Some(m) && from <= Minute(r.at) <= to && Key(m, Minute(r.at)) in t
            && Slot(Minute(r.at) - from, to - from, n) == k
  {
  }

  /** The first `k` slots of the rollup-backed series count the rolled rows there. */
  ghost predicate CountsBelow(raw: seq<Row>, t: Table, m: int, from: nat, to: nat, n: nat, k: nat)
    requires n > 0 && from < to
  {
    TotalCount(RollupSeries(t, m, from * 1000, to * 1000, n, k)) ==
    Aggregate(raw, RolledBelow(t, m, from, to, n, k)).count
  }

  lemma {:induction false} RollupPrefixCounts(raw: seq<Row>, t: Table, m: int, from: nat, to: nat, n: nat, k: nat)
    requires n > 0 && from < to && Faithful(raw, t, m, from, to + 1)
    ensures CountsBelow(raw, t, m, from, to, n, k)
  {
    if k == 0 {
      NoneRolledBelow(raw, t, m, from, to, n);
    } else {
      RollupPrefixCounts(raw, t, m, from, to, n, k - 1);
      NextCountsBelow(raw, t, m, from, to, n, k - 1);
    }
  }

  lemma NextCountsBelow(raw: seq<Row>, t: Table, m: int, from: nat, to: nat, n: nat, k: nat)
    requires n > 0 && from < to && Faithful(raw, t, m, from, to + 1) && CountsBelow(raw, t, m, from, to, n, k)
    ensures CountsBelow(raw, t, m, from, to, n, k + 1)
  {
    var slot := Behind(t, m, from, to + 1, TableSlot(from, to - from, n, k));
    var rows := SlotRows(t, m, from * 1000, to * 1000, n, k);
    assert JoinAll(rows).count == Aggregate(raw, slot).count && (rows == [] ==> JoinAll(rows).count == 0) by {
      SlotRowsAt(t, m, from, to, n, k);
      Regroup(raw, t, m, from, to + 1, TableSlot(from, to - from, n, k));
    }
    NextRollupTotal(t, m, from * 1000, to * 1000, n, k);
    NextRolled(raw, t, m, from, to, n, k);
  }

  lemma NoneRolledBelow(raw: seq<Row>, t: Table, m: int, from: nat, to: nat, n: nat)
    requires n > 0 && from < to
    ensures CountsBelow(raw, t, m, from, to, n, 0)
  {
    forall r | r in raw
      ensures !RolledBelow(t, m, from, to, n, 0)(r)
    {
      RolledBelowAt(t, m, from, to, n, 0, r);
    }
    AggregateNone(raw, RolledBelow(t, m, from, to, n, 0));
  }

  lemma RolledSomewhere(t: Table, m: int, from: nat, to: nat, n: nat, r: Row)
    requires n > 0 && from < to
    ensures RolledBelow(t, m, from, to, n, n)(r) == RolledIn(t, m, from, to)(r)
  {
    RolledBelowAt(t, m, from, to, n, n, r);
    RolledInAt(t, m, from, to, r);
  }

  /** Over any range of whole seconds the rollup-backed series counts every rolled row
      whose minute starts in the range in exactly one bucket, and no other row. */
  lemma RollupCountsEveryRolledRow(raw: seq<Row>, t: Table, m: int, from: nat, to: nat, n: nat)
    requires n > 0 && from < to && Faithful(raw, t, m, from, to + 1)
    ensures TotalCount(RollupSeries(t, m, from * 1000, to * 1000, n, n)) ==
            Aggregate(raw, RolledIn(t, m, from, to)).count
  {
    RollupPrefixCounts(raw, t, m, from, to, n, n);
    forall r | r in raw
      ensures RolledBelow(t, m, from, to, n, n)(r) == RolledIn(t, m, from, to)(r)
    {
      RolledSomewhere(t, m, from, to, n, r);
    }
    AggregateCong(raw, RolledBelow(t, m, from, to, n, n), RolledIn(t, m, from, to));
  }

  /** Raw rows of the first `k` slots that the rollup does not count: those of the
      minute the range opens in, and those not rolled yet. */
  function MissedBelow(t: Table, m: int, from: nat, to: nat, n: nat, k: nat): Row -> bool
    requires n > 0
  {
    (r: Row) => SlotsBelow(m, from * 1000, to * 1000, n, k)(r) && !RolledIn(t, m, from, to)(r)
  }

  /** Counted rows that lie after the range, in the minute it ends in. */
  function Beyond(t: Table, m: int, from: nat, to: nat): Row -> bool {
    (r: Row) => RolledIn(t, m, from, to)(r) && r.at > to * 1000
  }

  /** A counted row lies in a raw slot that is its rollup slot or the one after it. */
  lemma CountedRow(t: Table, m: int, from: nat, to: nat, n: nat, k: nat, r: Row)
    requires n > 0 && from < to && (to - from) / n >= 60
    ensures SlotsBelow(m, from * 1000, to * 1000, n, k)(r) && RolledIn(t, m, from, to)(r) ==>
              RolledBelow(t, m, from, to, n, k)(r)
    ensures RolledBelow(t, m, from, to, n, k)(r) && r.at <= to * 1000 ==>
              SlotsBelow(m, from * 1000, to * 1000, n, k + 1)(r)
    ensures RolledBelow(t, m, from, to, n, k)(r) ==> RolledIn(t, m, from, to)(r)
  {
    BelowAt(m, from, to, n, k, r);
    BelowAt(m, from, to, n, k + 1, r);
    RolledInAt(t, m, from, to, r);
    RolledBelowAt(t, m, from, to, n, k, r);
    if from <= Minute(r.at) {
      NearSlots(r.at, from, to, n, k);
    }
  }

  lemma NearSlots(at: nat, from: nat, to: nat, n: nat, k: nat)
    requires n > 0 && from < to && (to - from) / n >= 60 && from <= Minute(at)
    ensures from * 1000 <= at
    ensures var raw, rolled := Slot(at - from * 1000, (to - from) * 1000, n), Slot(Minute(at) - from, to - from, n);
            (raw < k ==> rolled < k) && (rolled < k ==> raw < k + 1)
  {
    MinuteFacts(at);
    RollupSlotNearRawSlot(at, from, to - from, n);
  }

  lemma BelowAt(m: int, from: nat, to: nat, n: nat, k: nat, r: Row)
    requires n > 0 && from < to
    ensures SlotsBelow(m, from * 1000, to * 1000, n, k)(r) <==>
            && r.monitor == Some(m) && from * 1000 <= r.at <= to * 1000
            && Slot(r.at - from * 1000, (to - from) * 1000, n) < k
  {
    assert SpanMs(from * 1000, to * 1000) == (to - from) * 1000;
  }

  /** Over any range of whole seconds that passes the gate, the count of the rollup's
      first `k` buckets lies between those of the raw series' first `k` and `k + 1`,
      but for the missed rows there and the counted rows beyond the range. */
  lemma PrefixesInterleave(raw: seq<Row>, t: Table, m: int, from: nat, to: nat, n: nat, k: nat)
    requires n > 0 && from < to && (to - from) / n >= 60 && Faithful(raw, t, m, from, to + 1)
    ensures TotalCount(RawSeries(raw, m, from * 1000, to * 1000, n, k)) <=
            TotalCount(RollupSeries(t, m, from * 1000, to * 1000, n, k)) +
            Aggregate(raw, MissedBelow(t, m, from, to, n, k)).count
    ensures TotalCount(RollupSeries(t, m, from * 1000, to * 1000, n, k)) +
            Aggregate(raw, MissedBelow(t, m, from, to, n, k + 1)).count <=
            TotalCount(RawSeries(raw, m, from * 1000, to * 1000, n, k + 1)) +
            Aggregate(raw, Beyond(t, m, from, to)).count
  {
    PrefixCounts(raw, m, from * 1000, to * 1000, n, k);
    PrefixCounts(raw, m, from * 1000, to * 1000, n, k + 1);
    RollupPrefixCounts(raw, t, m, from, to, n, k);
    forall r | r in raw
      ensures SlotsBelow(m, from * 1000, to * 1000, n, k)(r) ==>
                RolledBelow(t, m, from, to, n, k)(r) || MissedBelow(t, m, from, to, n, k)(r)
      ensures RolledBelow(t, m, from, to, n, k)(r) ==>
                SlotsBelow(m, from * 1000, to * 1000, n, k + 1)(r) || Beyond(t, m, from, to)(r)
      ensures MissedBelow(t, m, from, to, n, k + 1)(r) ==> SlotsBelow(m, from * 1000, to * 1000, n, k + 1)(r)
    {
      CountedRow(t, m, from, to, n, k, r);
    }
    AtMostTwo(raw, SlotsBelow(m, from * 1000, to * 1000, n, k),
              RolledBelow(t, m, from, to, n, k), MissedBelow(t, m, from, to, n, k));
    TwoInTwo(raw, RolledBelow(t, m, from, to, n, k), MissedBelow(t, m, from, to, n, k + 1),
             SlotsBelow(m, from * 1000, to * 1000, n, k + 1), Beyond(t, m, from, to));
  }

  /** Rows of `p` that are all in `a` or in `b`. */
  lemma AtMostTwo(raw: seq<Row>, p: Row -> bool, a: Row -> bool, b: Row -> bool)
    requires forall r :: r in raw && p(r) ==> a(r) || b(r)
    ensures Aggregate(raw, p).count <= Aggregate(raw, a).count + Aggregate(raw, b).count
  {
    var onlyB := (r: Row) => b(r) && !a(r);
    var both := (r: Row) => a(r) || b(r);
    AggregateUnion(raw, a, onlyB, both);
    AggregateWider(raw, onlyB, b);
    AggregateWider(raw, p, both);
  }

  /** Disjoint rows of `a` and of `b` that are all in `c` or in `d`. */
  lemma TwoInTwo(raw: seq<Row>, a: Row -> bool, b: Row -> bool, c: Row -> bool, d: Row -> bool)
    requires forall r :: r in raw ==> !(a(r) && b(r)) && (a(r) || b(r) ==> c(r) || d(r))
    ensures Aggregate(raw, a).count + Aggregate(raw, b).count <= Aggregate(raw, c).count + Aggregate(raw, d).count
  {
    var both := (r: Row) => a(r) || b(r);
    AggregateUnion(raw, a, b, both);
    AtMostTwo(raw, both, c, d);
  }
}
