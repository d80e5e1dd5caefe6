/** Uptime percentages: what the rollup-backed figure counts, and the bulk query. */
module Uptime {
  import opened Samples
  import opened Rollups
  import opened Series
  import opened RowCounts

  /** A bound above every minute of the table. */
  ghost function Horizon(keys: set<Key>): (h: nat)
    ensures forall k :: k in keys ==> k.bucket < h
  {
    if keys == {} then 0 else
      var k :| k in keys;
      var rest := Horizon(keys - {k});
      if k.bucket < rest then rest else k.bucket + 1
  }

  function Since(m: int, fromMs: nat): Row -> bool {
    (r: Row) => r.monitor == Some(m) && r.at >= fromMs
  }

  /** SUM over one monitor's table rows with `bucket_epoch >= from`. */
  ghost function Rolled(t: Table, m: int, from: nat): Agg {
    JoinAll(TableRows(t, m, from, Horizon(t.Keys), Any()))
  }

  function Percent(a: Agg): Option<real> {
    if a.count > 0 then Some(a.up as real / a.count as real * 100.0) else None
  }

  ghost function GetUptime(raw: seq<Row>, t: Table, m: int, nowMs: nat, window: nat): Option<real>
    requires window * 1000 <= nowMs
  {
    var fromMs := nowMs - window * 1000;
    if window >= DAY && Rolled(t, m, fromMs / 1000).count > 0
    then Percent(Rolled(t, m, fromMs / 1000))
    else Percent(Aggregate(raw, Since(m, fromMs)))
  }

  // ── What the figure is ──────────────────────────────────────────────────────

  /** A figure over `count` rows: how many of a hundred of them are 'up'. */
  ghost predicate IsShareUp(figure: Option<real>, count: nat, ups: nat) {
    && (figure.None? <==> count == 0)
    && (figure.Some? ==> figure.value * count as real == 100.0 * ups as real)
  }

  lemma PercentIsShare(a: Agg)
    ensures IsShareUp(Percent(a), a.count, a.up)
  {
    if a.count > 0 {
      ShareTimes(a.up as real, a.count as real);
    }
  }

  lemma ShareTimes(up: real, count: real)
    requires count > 0.0
    ensures up / count * 100.0 * count == 100.0 * up
  {
    var share := up / count;
    assert share * count == up;
    assert share * 100.0 * count == 100.0 * (share * count);
  }

  lemma ShareOfRows(rows: seq<Row>, q: Row -> bool, ups: Row -> bool)
    requires forall r :: ups(r) <==> q(r) && r.up
    ensures IsShareUp(Percent(Aggregate(rows, q)), |Filter(rows, q)|, |Filter(rows, ups)|)
  {
    AggregateCounts(rows, q);
    FilterCong(rows, ups, UpOnly(q));
    PercentIsShare(Aggregate(rows, q));
  }

  /** The uptime figure, in plain terms.  Below a day, or when nothing of the window has
      been rolled, it is the share of 'up' rows among those stamped in the window;
      else among those whose minute starts in the window and has been rolled.  It is
      missing exactly when there are none. */
  lemma UptimeIsShare(raw: seq<Row>, t: Table, m: int, nowMs: nat, window: nat, q: Row -> bool, ups: Row -> bool)
    requires window * 1000 <= nowMs && forall r :: ups(r) <==> q(r) && r.up
    requires var fromMs := nowMs - window * 1000;
             if window < 86_400 || !HasRolled(t, m, fromMs / 1000)
             then forall r :: q(r) <==> r.monitor == Some(m) && fromMs <= r.at
             else Faithful(raw, t, m, fromMs / 1000, Horizon(t.Keys))
                  && forall r :: q(r) <==>
                       r.monitor == Some(m) && fromMs / 1000 <= Minute(r.at) && Key(m, Minute(r.at)) in t
    ensures IsShareUp(GetUptime(raw, t, m, nowMs, window), |Filter(raw, q)|, |Filter(raw, ups)|)
  {
    var fromMs := nowMs - window * 1000;
    assert GetUptime(raw, t, m, nowMs, window) == Percent(Aggregate(raw, q)) by {
      RolledHas(t, m, fromMs / 1000);
      if window < DAY || Rolled(t, m, fromMs / 1000).count == 0 {
        AggregateCong(raw, q, Since(m, fromMs));
      } else {
        RolledIsCounted(raw, t, m, fromMs / 1000);
        AggregateCong(raw, q, Counted(t, m, fromMs / 1000));
      }
    }
    ShareOfRows(raw, q, ups);
  }

  /** The figure of one monitor in the bulk query: over its rolled rows as soon as any
      monitor has some in the window, else over its rows stamped in the window. */
  lemma BulkIsShare(raw: seq<Row>, t: Table, m: int, nowMs: nat, q: Row -> bool, ups: Row -> bool)
    requires 86_400_000 <= nowMs && forall r :: ups(r) <==> q(r) && r.up
    requires var fromMs := nowMs - 86_400_000;
             if !(exists other :: HasRolled(t, other, fromMs / 1000))
             then forall r :: q(r) <==> r.monitor == Some(m) && fromMs <= r.at
             else Faithful(raw, t, m, fromMs / 1000, Horizon(t.Keys))
                  && forall r :: q(r) <==>
                       r.monitor == Some(m) && fromMs / 1000 <= Minute(r.at) && Key(m, Minute(r.at)) in t
    ensures IsShareUp(BulkUptime(raw, t, m, nowMs), |Filter(raw, q)|, |Filter(raw, ups)|)
  {
    var fromMs := nowMs - 86_400_000;
    ShareOfRows(raw, q, ups);
    AnyRolledHas(t, fromMs / 1000);
    if AnyRolled(t, fromMs / 1000) {
      RolledIsCounted(raw, t, m, fromMs / 1000);
      AggregateCong(raw, q, Counted(t, m, fromMs / 1000));
    } else {
      AggregateCong(raw, q, Since(m, fromMs));
    }
  }

  ghost predicate HasRolled(t: Table, m: int, from: nat) {
    exists b :: from <= b && Counting(t, m, b)
  }

  lemma AnyRolledHas(t: Table, from: nat)
    ensures AnyRolled(t, from) <==> exists other :: HasRolled(t, other, from)
  {
    if other :| Rolled(t, other, from).count > 0 {
      RolledHas(t, other, from);
    }
    if other :| HasRolled(t, other, from) {
      RolledHas(t, other, from);
    }
  }

  // ── What the rollup-backed figure counts ────────────────────────────────────

  /** Rows whose minute starts in the window and has been rolled. */
  function Counted(t: Table, m: int, from: nat): Row -> bool {
    (r: Row) => r.monitor == Some(m) && from <= Minute(r.at) && Key(m, Minute(r.at)) in t
  }

  /** Rows of the window whose minute started before it. */
  function Leading(m: int, fromMs: nat): Row -> bool {
    (r: Row) => r.monitor == Some(m) && r.at >= fromMs && Minute(r.at) < fromMs / 1000
  }

  /** Rows of the window that have not been rolled. */
  function Tail(t: Table, m: int, fromMs: nat): Row -> bool {
    (r: Row) => r.monitor == Some(m) && r.at >= fromMs && Minute(r.at) >= fromMs / 1000 && Key(m, Minute(r.at)) !in t
  }

  /** Rolled rows of the window's first second, stamped before the window opens. */
  function Fringe(t: Table, m: int, fromMs: nat): Row -> bool {
    (r: Row) => r.monitor == Some(m) && r.at < fromMs && Minute(r.at) >= fromMs / 1000 && Key(m, Minute(r.at)) in t
  }

  function Shared(t: Table, m: int, fromMs: nat): Row -> bool {
    (r: Row) => r.monitor == Some(m) && r.at >= fromMs && Minute(r.at) >= fromMs / 1000 && Key(m, Minute(r.at)) in t
  }

  lemma RolledIsCounted(raw: seq<Row>, t: Table, m: int, from: nat)
    requires Faithful(raw, t, m, from, Horizon(t.Keys))
    ensures Rolled(t, m, from) == Aggregate(raw, Counted(t, m, from))
  {
    var h := Horizon(t.Keys);
    Regroup(raw, t, m, from, h, Any());
    AggregateCong(raw, Behind(t, m, from, h, Any()), Counted(t, m, from));
  }

  /** For a day or more, once the rollup has data for the window, the figure is
      the up-fraction of the rows whose minute starts in the window and has been
      rolled. */
  lemma UptimeCountsRolledRows(raw: seq<Row>, t: Table, m: int, nowMs: nat, window: nat)
    requires DAY <= window && window * 1000 <= nowMs
    requires var from := (nowMs - window * 1000) / 1000;
             Faithful(raw, t, m, from, Horizon(t.Keys)) && Rolled(t, m, from).count > 0
    ensures GetUptime(raw, t, m, nowMs, window) ==
            Percent(Aggregate(raw, Counted(t, m, (nowMs - window * 1000) / 1000)))
  {
    RolledIsCounted(raw, t, m, (nowMs - window * 1000) / 1000);
  }

  /** Against the rows of the raw window the counted rows leave out those of the
      leading partial minute and those of the unrolled tail, and no others. */
  lemma {:induction false} CountedAgainstWindow(raw: seq<Row>, t: Table, m: int, fromMs: nat)
    ensures var counted, since := Aggregate(raw, Counted(t, m, fromMs / 1000)), Aggregate(raw, Since(m, fromMs));
            var leading, tail := Aggregate(raw, Leading(m, fromMs)), Aggregate(raw, Tail(t, m, fromMs));
            var fringe := Aggregate(raw, Fringe(t, m, fromMs));
            && counted.count + leading.count + tail.count == since.count + fringe.count
            && counted.up + leading.up + tail.up == since.up + fringe.up
  {
    WindowSplit(raw, t, m, fromMs);
  }

  /** Leading rows are those of the minute the window opens in, unless it opens in
      that minute's first second.  Then, and only then, the counted rows take in
      earlier ones: those of that same second, once the minute has been rolled. */
  lemma WindowEdges(t: Table, m: int, fromMs: nat, r: Row)
    ensures Leading(m, fromMs)(r) <==>
            r.monitor == Some(m) && r.at >= fromMs && Minute(r.at) == Minute(fromMs) && !OpensAMinute(fromMs)
    ensures Fringe(t, m, fromMs)(r) <==>
            && OpensAMinute(fromMs) && r.monitor == Some(m) && Key(m, Minute(fromMs)) in t
            && r.at / 1000 == fromMs / 1000 && r.at < fromMs
  {
    MinuteFacts(fromMs);
    MinuteFacts(r.at);
    if r.at >= fromMs {
      MinutesFollowTime(fromMs, r.at);
    } else if Minute(r.at) >= fromMs / 1000 {
      MinutesFollowTime(r.at, fromMs);
    }
    if r.at / 1000 == fromMs / 1000 {
      SameSecond(r.at, fromMs);
    }
  }

  /** The instant lies in the first second of a minute. */
  predicate OpensAMinute(fromMs: nat) { fromMs / 1000 % 60 == 0 }

  lemma SameSecond(at: nat, other: nat)
    requires at / 1000 == other / 1000
    ensures Minute(at) == Minute(other)
  {
    MinuteOfSecond(at);
    MinuteOfSecond(other);
  }

  lemma MinuteOfSecond(at: nat)
    ensures Minute(at) == at / 1000 / 60 * 60
  {
  }

  /** A window that opens at half past the first second of minute 60: the row of
      the instant before is counted, although the raw window leaves it out. */
  lemma FringeRow() returns (raw: seq<Row>, t: Table)
    ensures Faithful(raw, t, 0, 60, Horizon(t.Keys))
    ensures Aggregate(raw, Counted(t, 0, 60_500 / 1000)).count == 1 && Aggregate(raw, Since(0, 60_500)).count == 0
  {
    var row := Row(Some(0), 60_200, true, Some(1), None);
    raw := [row];
    t := map[Key(0, 60) := Aggregate(raw, InMinute(0, 60))];
    assert raw[..0] == [];
    assert InMinute(0, 60)(row) && row in raw;
    AggregateNone(raw, Since(0, 60_500));
  }

  lemma WindowSplit(raw: seq<Row>, t: Table, m: int, fromMs: nat)
    ensures Aggregate(raw, Counted(t, m, fromMs / 1000)) ==
            Join(Aggregate(raw, Shared(t, m, fromMs)), Aggregate(raw, Fringe(t, m, fromMs)))
    ensures Aggregate(raw, Since(m, fromMs)) ==
            Join(Join(Aggregate(raw, Shared(t, m, fromMs)), Aggregate(raw, Leading(m, fromMs))),
                 Aggregate(raw, Tail(t, m, fromMs)))
  {
    AggregateUnion(raw, Shared(t, m, fromMs), Fringe(t, m, fromMs), Counted(t, m, fromMs / 1000));
    var early := (r: Row) => Since(m, fromMs)(r) && !Tail(t, m, fromMs)(r);
    AggregateUnion(raw, Shared(t, m, fromMs), Leading(m, fromMs), early);
    AggregateUnion(raw, early, Tail(t, m, fromMs), Since(m, fromMs));
  }

  // ── The bulk query of the dashboard ─────────────────────────────────────────

  /** Some monitor has rollup rows in the window. */
  ghost predicate AnyRolled(t: Table, from: nat) {
    exists other :: Rolled(t, other, from).count > 0
  }

  /** The entry of one monitor in the map of `get_uptime_24h_all`; the raw rows
      answer only when no monitor has rollup rows in the window. */
  ghost function BulkUptime(raw: seq<Row>, t: Table, m: int, nowMs: nat): Option<real>
    requires DAY * 1000 <= nowMs
  {
    var fromMs := nowMs - DAY * 1000;
    if AnyRolled(t, fromMs / 1000)
    then Percent(Rolled(t, m, fromMs / 1000))
    else Percent(Aggregate(raw, Since(m, fromMs)))
  }

  /** The table has a row of the monitor for that minute, and it counts something. */
  predicate Counting(t: Table, m: int, b: nat) {
    Key(m, b) in t && t[Key(m, b)].count > 0
  }

  lemma BulkSides(raw: seq<Row>, t: Table, m: int, nowMs: nat)
    requires DAY * 1000 <= nowMs
    ensures var fromMs := nowMs - DAY * 1000;
            BulkUptime(raw, t, m, nowMs).Some? <==>
            if AnyRolled(t, fromMs / 1000) then Rolled(t, m, fromMs / 1000).count > 0
            else Aggregate(raw, Since(m, fromMs)).count > 0
  {
  }

  /** Two states that agree about one monitor, where the second has no more rolled
      monitors than the first. */
  lemma BulkSame(raw: seq<Row>, t: Table, raw': seq<Row>, t': Table, m: int, nowMs: nat)
    requires DAY * 1000 <= nowMs
    requires var fromMs := nowMs - DAY * 1000;
             && Rolled(t, m, fromMs / 1000) == Rolled(t', m, fromMs / 1000)
             && Aggregate(raw, Since(m, fromMs)) == Aggregate(raw', Since(m, fromMs))
             && (AnyRolled(t', fromMs / 1000) ==> AnyRolled(t, fromMs / 1000))
    ensures var fromMs := nowMs - DAY * 1000;
            BulkUptime(raw', t', m, nowMs) == BulkUptime(raw, t, m, nowMs) <==>
            || Rolled(t, m, fromMs / 1000).count > 0
            || !AnyRolled(t, fromMs / 1000)
            || AnyRolled(t', fromMs / 1000)
            || Aggregate(raw, Since(m, fromMs)).count == 0
  {
  }

  /** SUM(count) over the monitor's table rows from `lo` to before `hi`. */
  function CountOf(t: Table, m: int, lo: nat, hi: nat): nat {
    JoinAll(TableRows(t, m, lo, hi, Any())).count
  }

  ghost predicate CountingIn(t: Table, m: int, lo: nat, hi: nat) {
    exists b :: lo <= b < hi && Counting(t, m, b)
  }

  /** A monitor's figure has something to count exactly when the table has a row of
      it in the window that counts something. */
  lemma RolledHas(t: Table, m: int, from: nat)
    ensures Rolled(t, m, from).count > 0 <==> HasRolled(t, m, from)
  {
    SumHas(t, m, from, Horizon(t.Keys));
    if b :| from <= b && Counting(t, m, b) {
      assert CountingIn(t, m, from, Horizon(t.Keys));
    }
  }

  lemma {:induction false} SumHas(t: Table, m: int, lo: nat, hi: nat)
    ensures CountOf(t, m, lo, hi) > 0 <==> CountingIn(t, m, lo, hi)
    decreases hi
  {
    if lo < hi {
      var b := hi - 1;
      SumHas(t, m, lo, b);
      NextCount(t, m, lo, b);
      NextCounting(t, m, lo, b);
      assert b + 1 == hi;
    } else {
      assert TableRows(t, m, lo, hi, Any()) == [];
    }
  }

  lemma NextCounting(t: Table, m: int, lo: nat, b: nat)
    requires lo <= b
    ensures CountingIn(t, m, lo, b + 1) <==> CountingIn(t, m, lo, b) || Counting(t, m, b)
  {
  }

  lemma NextCount(t: Table, m: int, lo: nat, b: nat)
    requires lo <= b
    ensures CountOf(t, m, lo, b + 1) == CountOf(t, m, lo, b) + if Counting(t, m, b) then t[Key(m, b)].count else 0
  {
    var rest := TableRows(t, m, lo, b, Any());
    if Key(m, b) in t {
      assert (rest + [t[Key(m, b)]])[..|rest|] == rest;
    }
  }

  /** The list and the detail page show the same 24 h figure for a monitor exactly
      when it has rollup rows in the window, or no monitor has, or it has no raw
      rows there either. */
  lemma BulkAgrees(raw: seq<Row>, t: Table, m: int, nowMs: nat)
    requires DAY * 1000 <= nowMs
    ensures var fromMs := nowMs - DAY * 1000;
            BulkUptime(raw, t, m, nowMs) == GetUptime(raw, t, m, nowMs, DAY) <==>
            || Rolled(t, m, fromMs / 1000).count > 0
            || !AnyRolled(t, fromMs / 1000)
            || !(exists r :: r in raw && Since(m, fromMs)(r))
  {
    AggregateNone(raw, Since(m, nowMs - DAY * 1000));
  }

  /** Monitor 0 has a raw row in the window and monitor 1 a rolled one: the list has
      no figure for monitor 0, and its own page has. */
  lemma BulkDiffers() returns (raw: seq<Row>, t: Table)
    ensures BulkUptime(raw, t, 0, 2 * DAY * 1000).None? && GetUptime(raw, t, 0, 2 * DAY * 1000, DAY).Some?
  {
    var both := BehindOnOne();
    raw, t := both.0, both.1;
    BehindOnOneCounts(raw, t);
    assert AnyRolled(t, DAY);
  }

  /** Both monitors have a row at the start of the second day; only monitor 1's has been rolled. */
  function BehindOnOne(): (seq<Row>, Table) {
    ([Row(Some(0), DAY * 1000, true, Some(1), None), Row(Some(1), DAY * 1000, true, Some(1), None)],
     map[Key(1, DAY) := Agg(1, 1, 1, Some(1), Some(1))])
  }

  lemma BehindOnOneCounts(raw: seq<Row>, t: Table)
    requires (raw, t) == BehindOnOne()
    ensures Rolled(t, 0, DAY).count == 0 && Rolled(t, 1, DAY).count > 0
    ensures Aggregate(raw, Since(0, DAY * 1000)).count > 0
  {
    RolledHas(t, 0, DAY);
    RolledHas(t, 1, DAY);
    assert Counting(t, 1, DAY);
    assert raw[0] in raw && Since(0, DAY * 1000)(raw[0]);
    AggregateNone(raw, Since(0, DAY * 1000));
  }
}
