/** What pruning and deletion leave unchanged above the cutoff, and what they do not. */
module Retention {
  import opened Samples
  import opened Rollups
  import opened RollupRuns
  import opened Slots
  import opened Series
  import opened Uptime

  /** The tables hold the same about one monitor from an instant on. */
  ghost predicate AgreeFrom(raw: seq<Row>, t: Table, raw': seq<Row>, t': Table, m: int, fromMs: nat) {
    && Filter(raw, Since(m, fromMs)) == Filter(raw', Since(m, fromMs))
    && forall b :: b >= fromMs / 1000 ==>
         (Key(m, b) in t <==> Key(m, b) in t') && (Key(m, b) in t ==> t[Key(m, b)] == t'[Key(m, b)])
  }

  /** `get_history`, `get_state_segments` and `get_border_hop_segments` read these. */
  function Window(m: int, fromMs: nat, toMs: nat): Row -> bool {
    (r: Row) => r.monitor == Some(m) && fromMs <= r.at <= toMs
  }

  lemma TimesAppend(rows: seq<Row>, r: Row, p: Row -> bool)
    ensures var t := Times(rows, p);
            Times(rows + [r], p) == if p(r) && r.ms.Some? then (t.0 + r.ms.value, t.1 + 1) else t
  {
    assert (rows + [r])[..|rows|] == rows;
  }

  lemma {:induction false} TimesFilter(rows: seq<Row>, keep: Row -> bool, p: Row -> bool)
    requires forall r :: r in rows && p(r) ==> keep(r)
    ensures Times(Filter(rows, keep), p) == Times(rows, p)
  {
    if rows != [] {
      var init, last := rows[..|rows| - 1], rows[|rows| - 1];
      TimesFilter(init, keep, p);
      if keep(last) {
        TimesAppend(Filter(init, keep), last, p);
      }
    }
  }

  // ── Queries see only what they ask for ──────────────────────────────────────

  lemma SameAggregate(raw: seq<Row>, raw': seq<Row>, m: int, fromMs: nat, p: Row -> bool)
    requires Filter(raw, Since(m, fromMs)) == Filter(raw', Since(m, fromMs))
    requires forall r :: p(r) ==> Since(m, fromMs)(r)
    ensures Aggregate(raw, p) == Aggregate(raw', p) && Times(raw, p) == Times(raw', p)
    ensures Filter(raw, p) == Filter(raw', p)
  {
    AggregateFilter(raw, Since(m, fromMs), p);
    AggregateFilter(raw', Since(m, fromMs), p);
    TimesFilter(raw, Since(m, fromMs), p);
    TimesFilter(raw', Since(m, fromMs), p);
    FilterTwice(raw, Since(m, fromMs), p);
    FilterTwice(raw', Since(m, fromMs), p);
  }

  lemma {:induction false} SameTableRows(t: Table, t': Table, m: int, lo: nat, hi: nat, p: nat -> bool)
    requires forall b :: b >= lo ==>
             (Key(m, b) in t <==> Key(m, b) in t') && (Key(m, b) in t ==> t[Key(m, b)] == t'[Key(m, b)])
    ensures TableRows(t, m, lo, hi, p) == TableRows(t', m, lo, hi, p)
    decreases hi
  {
    if lo < hi {
      SameTableRows(t, t', m, lo, hi - 1, p);
    }
  }

  lemma {:induction false} NothingBeyond(t: Table, m: int, lo: nat, h: nat, hi: nat, p: nat -> bool)
    requires forall b :: b >= h ==> Key(m, b) !in t
    requires h <= hi
    ensures TableRows(t, m, lo, hi, p) == TableRows(t, m, lo, h, p)
    decreases hi
  {
    if h < hi {
      NothingBeyond(t, m, lo, h, hi - 1, p);
    }
  }

  lemma SameRolled(raw: seq<Row>, t: Table, raw': seq<Row>, t': Table, m: int, fromMs: nat)
    requires AgreeFrom(raw, t, raw', t', m, fromMs)
    ensures Rolled(t, m, fromMs / 1000) == Rolled(t', m, fromMs / 1000)
  {
    var lo, h, h' := fromMs / 1000, Horizon(t.Keys), Horizon(t'.Keys);
    var top := if h < h' then h' else h;
    NothingBeyond(t, m, lo, h, top, Any());
    NothingBeyond(t', m, lo, h', top, Any());
    SameTableRows(t, t', m, lo, top, Any());
  }

  lemma {:induction false} SameRawSeries(raw: seq<Row>, raw': seq<Row>, m: int, fromMs: nat, toMs: nat, n: nat, k: nat)
    requires n > 0 && Filter(raw, Since(m, fromMs)) == Filter(raw', Since(m, fromMs))
    ensures RawSeries(raw, m, fromMs, toMs, n, k) == RawSeries(raw', m, fromMs, toMs, n, k)
  {
    if k > 0 {
      SameRawSeries(raw, raw', m, fromMs, toMs, n, k - 1);
      SameAggregate(raw, raw', m, fromMs, RawSlot(m, fromMs, toMs, n, k - 1));
    }
  }

  lemma {:induction false} SameRollupSeries(raw: seq<Row>, t: Table, raw': seq<Row>, t': Table, m: int, fromMs: nat,
                                            toMs: nat, n: nat, k: nat)
    requires n > 0 && fromMs / 1000 < toMs / 1000 && AgreeFrom(raw, t, raw', t', m, fromMs)
    ensures RollupSeries(t, m, fromMs, toMs, n, k) == RollupSeries(t', m, fromMs, toMs, n, k)
  {
    if k > 0 {
      SameRollupSeries(raw, t, raw', t', m, fromMs, toMs, n, k - 1);
      var from, to := fromMs / 1000, toMs / 1000;
      SameTableRows(t, t', m, from, to + 1, TableSlot(from, to - from, n, k - 1));
    }
  }

  /** The answers of the queries about one monitor over ranges that open at `fromMs`. */
  ghost predicate SameAnswers(raw: seq<Row>, t: Table, raw': seq<Row>, t': Table, m: int, fromMs: nat) {
    && (forall toMs :: Filter(raw, Window(m, fromMs, toMs)) == Filter(raw', Window(m, fromMs, toMs)))
    && (forall toMs, n :: n > 0 ==>
          SeriesAnswer(raw, t, m, fromMs, toMs, n) == SeriesAnswer(raw', t', m, fromMs, toMs, n))
    && (forall window: nat ::
          var now := fromMs + window * 1000;
          GetUptime(raw, t, m, now, window) == GetUptime(raw', t', m, now, window))
  }

  lemma QueriesSeeTheirWindow(raw: seq<Row>, t: Table, raw': seq<Row>, t': Table, m: int, fromMs: nat)
    requires AgreeFrom(raw, t, raw', t', m, fromMs)
    ensures SameAnswers(raw, t, raw', t', m, fromMs)
  {
    forall toMs
      ensures Filter(raw, Window(m, fromMs, toMs)) == Filter(raw', Window(m, fromMs, toMs))
    {
      SameAggregate(raw, raw', m, fromMs, Window(m, fromMs, toMs));
    }
    forall toMs, n | n > 0
      ensures SeriesAnswer(raw, t, m, fromMs, toMs, n) == SeriesAnswer(raw', t', m, fromMs, toMs, n)
    {
      SameSeries(raw, t, raw', t', m, fromMs, toMs, n);
    }
    SameRolled(raw, t, raw', t', m, fromMs);
    SameAggregate(raw, raw', m, fromMs, Since(m, fromMs));
  }

  lemma SameSeries(raw: seq<Row>, t: Table, raw': seq<Row>, t': Table, m: int, fromMs: nat, toMs: nat, n: nat)
    requires n > 0 && AgreeFrom(raw, t, raw', t', m, fromMs)
    ensures SeriesAnswer(raw, t, m, fromMs, toMs, n) == SeriesAnswer(raw', t', m, fromMs, toMs, n)
  {
    SameRawSeries(raw, raw', m, fromMs, toMs, n, n);
    if Coarse(fromMs, toMs, n) {
      SameRollupSeries(raw, t, raw', t', m, fromMs, toMs, n, n);
    }
  }

  /** The step deletes nothing of this monitor from the instant on. */
  predicate Spares(e: Event, m: int, fromMs: nat) {
    match e
    case PruneRaw(victim, c) => m != victim || c <= fromMs
    case PruneTable(victim, c) => m != victim || c <= fromMs
    case DeleteResults(victim) => m != victim
    case _ => false
  }

  lemma RetentionAgrees(w: World, e: Event, m: int, fromMs: nat)
    requires Spares(e, m, fromMs)
    ensures AgreeFrom(w.raw, w.table, Next(w, e).raw, Next(w, e).table, m, fromMs)
  {
    match e
    case PruneRaw(victim, c) => FilterTwice(w.raw, Survives(victim, c), Since(m, fromMs));
    case PruneTable(victim, c) =>
    case DeleteResults(victim) => FilterTwice(w.raw, NotOf(victim), Since(m, fromMs));
  }

  /** A prune or a deletion changes no history, series or uptime answer about any other
      monitor, and a prune none about its own over a range that opens at or after
      the cutoff.  The bulk figure is another matter: see `BulkUnderRetention`. */
  lemma RetentionInvisible(w: World, e: Event, m: int, fromMs: nat)
    requires Spares(e, m, fromMs)
    ensures SameAnswers(w.raw, w.table, Next(w, e).raw, Next(w, e).table, m, fromMs)
  {
    RetentionAgrees(w, e, m, fromMs);
    QueriesSeeTheirWindow(w.raw, w.table, Next(w, e).raw, Next(w, e).table, m, fromMs);
  }

  /** A chart over minutes the loop has left behind, and no prune has reached,
      shows exactly the raw rows, on every run of the system. */
  lemma ChartsOnEveryRun(w: World, events: seq<Event>, m: int, from: nat, to: nat, n: nat, width: nat)
    requires Init(w) && w.delay <= OVERLAP_MS && !w.blind && Runs(w, events)
    requires from % 60 == 0 && from < to && WholeMinuteSlots(to - from, n, width)
    requires to + 60 < After(w, events).high && CutOf(After(w, events), m) <= from * 1000
    requires forall r :: r in After(w, events).raw && r.monitor == Some(m) ==> (r.up <==> r.ms.Some?)
    ensures var end := After(w, events);
            SeriesAnswer(end.raw, end.table, m, from * 1000, to * 1000, n) ==
              RawSeries(end.raw, m, from * 1000, to * 1000, n, n) <==>
            !HasOverhang(end.raw, m, to)
  {
    var end := After(w, events);
    forall b | from <= b <= to
      ensures Coherent(end.raw, end.table, m, b)
    {
      RollupMatchesRaw(w, events, m, b);
    }
    RollupServesTheRawSeries(end.raw, end.table, m, from, to, n, width);
  }

  // ── The bulk figure, which another monitor can change ───────────────────────

  /** A deleting step takes table rows away and adds none. */
  lemma RolledShrinks(w: World, e: Event, from: nat)
    requires e.PruneRaw? || e.PruneTable? || e.DeleteResults?
    ensures AnyRolled(Next(w, e).table, from) ==> AnyRolled(w.table, from)
  {
    var t' := Next(w, e).table;
    if other :| Rolled(t', other, from).count > 0 {
      RolledHas(t', other, from);
      RolledHas(w.table, other, from);
      var b :| from <= b && Counting(t', other, b);
      assert Counting(w.table, other, b);
    }
  }

  /** A prune or a deletion that spares a monitor leaves its figure in the bulk 24 h
      query as it was if and only if the monitor has rollup rows in the window, or
      no monitor had any, or some monitor still has one, or the monitor has no raw
      rows there. */
  lemma BulkUnderRetention(w: World, e: Event, m: int, nowMs: nat)
    requires DAY * 1000 <= nowMs && Spares(e, m, nowMs - DAY * 1000)
    ensures var fromMs := nowMs - DAY * 1000;
            BulkUptime(Next(w, e).raw, Next(w, e).table, m, nowMs) == BulkUptime(w.raw, w.table, m, nowMs) <==>
            || Rolled(w.table, m, fromMs / 1000).count > 0
            || !AnyRolled(w.table, fromMs / 1000)
            || AnyRolled(Next(w, e).table, fromMs / 1000)
            || !(exists r :: r in w.raw && Since(m, fromMs)(r))
  {
    var fromMs := nowMs - DAY * 1000;
    RetentionAgrees(w, e, m, fromMs);
    RolledShrinks(w, e, fromMs / 1000);
    BulkAgreeing(w.raw, w.table, Next(w, e).raw, Next(w, e).table, m, nowMs);
  }

  lemma BulkAgreeing(raw: seq<Row>, t: Table, raw': seq<Row>, t': Table, m: int, nowMs: nat)
    requires DAY * 1000 <= nowMs
    requires var fromMs := nowMs - DAY * 1000;
             AgreeFrom(raw, t, raw', t', m, fromMs) && (AnyRolled(t', fromMs / 1000) ==> AnyRolled(t, fromMs / 1000))
    ensures var fromMs := nowMs - DAY * 1000;
            BulkUptime(raw', t', m, nowMs) == BulkUptime(raw, t, m, nowMs) <==>
            || Rolled(t, m, fromMs / 1000).count > 0
            || !AnyRolled(t, fromMs / 1000)
            || AnyRolled(t', fromMs / 1000)
            || !(exists r :: r in raw && Since(m, fromMs)(r))
  {
    var fromMs := nowMs - DAY * 1000;
    SameRolled(raw, t, raw', t', m, fromMs);
    SameAggregate(raw, raw', m, fromMs, Since(m, fromMs));
    BulkSame(raw, t, raw', t', m, nowMs);
    AggregateNone(raw, Since(m, fromMs));
  }

  lemma NothingRolled(t: Table, from: nat)
    requires t == map[]
    ensures !AnyRolled(t, from)
  {
    forall other
      ensures Rolled(t, other, from).count == 0
    {
      RolledHas(t, other, from);
    }
  }

  lemma BehindOnOneGone(w: World)
    requires (w.raw, w.table) == BehindOnOne()
    ensures !AnyRolled(Next(w, DeleteResults(1)).table, DAY)
  {
    assert Next(w, DeleteResults(1)).table == map[];
    NothingRolled(Next(w, DeleteResults(1)).table, DAY);
  }

  /** Deleting monitor 1 gives monitor 0 a bulk figure that it did not have. */
  lemma DeletionShows(w: World)
    requires (w.raw, w.table) == BehindOnOne()
    ensures BulkUptime(w.raw, w.table, 0, 2 * DAY * 1000).None?
    ensures BulkUptime(Next(w, DeleteResults(1)).raw, Next(w, DeleteResults(1)).table, 0, 2 * DAY * 1000).Some?
  {
    BehindOnOneCounts(w.raw, w.table);
    BulkSides(w.raw, w.table, 0, 2 * DAY * 1000);
    BehindOnOneGone(w);
    OthersRowsStay(w);
    BulkSides(Next(w, DeleteResults(1)).raw, Next(w, DeleteResults(1)).table, 0, 2 * DAY * 1000);
  }

  lemma OthersRowsStay(w: World)
    ensures Aggregate(Next(w, DeleteResults(1)).raw, Since(0, DAY * 1000)) == Aggregate(w.raw, Since(0, DAY * 1000))
  {
    AggregateFilter(w.raw, NotOf(1), Since(0, DAY * 1000));
  }

  // ── A chart that shows more than its range ──────────────────────────────────

  /** A row half a second into the minute that starts at `to`: on this run, which has
      settled that minute, a chart of `n` slots of a minute counts it. */
  lemma OverhangRun(n: nat, row: Row) returns (w: World, events: seq<Event>)
    requires n > 0 && row.monitor == Some(0) && row.at == 60 * n * 1000 + 500 && row.up && row.ms.Some?
    ensures Init(w) && w.delay <= OVERLAP_MS && !w.blind && Runs(w, events)
    ensures WholeMinuteSlots(60 * n, n, 60) && 60 * n + 60 < After(w, events).high && CutOf(After(w, events), 0) == 0
    ensures var end := After(w, events);
            && (forall r :: r in end.raw && r.monitor == Some(0) ==> (r.up <==> r.ms.Some?))
            && HasOverhang(end.raw, 0, 60 * n)
            && SeriesAnswer(end.raw, end.table, 0, 0, 60 * n * 1000, n) != RawSeries(end.raw, 0, 0, 60 * n * 1000, n, n)
  {
    var to := 60 * n;
    w, events := OneRowRun(to, row);
    assert Overhang(0, to)(row) && row in After(w, events).raw;
    ChartsOnEveryRun(w, events, 0, 0, to, n, 60);
  }

  /** A run that starts with one row of history and rolls two minutes beyond its own. */
  lemma OneRowRun(to: nat, row: Row) returns (w: World, events: seq<Event>)
    requires to % 60 == 0 && to >= 60 && row.at == to * 1000 + 500
    ensures Init(w) && w.delay == 0 && !w.blind && Runs(w, events)
    ensures After(w, events).raw == [row] && After(w, events).cut == map[] && After(w, events).high == to + 120
  {
    w := World((to + 120) * 1000, [row], map[], Stopped, 0, map[], 0, false);
    var w1 := w.(phase := Starting);
    var w2 := w.(phase := Waiting(to), high := to);
    var w3 := w2.(phase := Rolling(to - 60, to + 120));
    var w4 := Next(w3, ChunkDone);
    assert EarliestStamp([row]) == row.at;
    OverhangMinute(row.at, to);
    OverhangMinute(w.now, to + 120);
    assert Next(w1, StartFromRaw) == w2;
    assert Next(w2, TickStart) == w3;
    assert w4.phase == Rolling(to + 120, to + 120);
    events := [TickEnd];
    RunFrom(w4, TickEnd, []);
    RunFrom(w3, ChunkDone, events);
    events := [ChunkDone] + events;
    RunFrom(w2, TickStart, events);
    events := [TickStart] + events;
    RunFrom(w1, StartFromRaw, events);
    events := [StartFromRaw] + events;
    RunFrom(w, StartEmpty, events);
    events := [StartEmpty] + events;
  }
}
