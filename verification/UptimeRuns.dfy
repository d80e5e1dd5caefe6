/** What a table row counts on every run, and so what an uptime figure counts. */
module UptimeRuns {
  import opened Samples
  import opened Rollups
  import opened RollupRuns
  import opened Series
  import opened Uptime
  import opened Retention
  import opened RowCounts

  function AllRows(): Row -> bool { (r: Row) => true }

  /** The rows of one minute, in the order in which they were inserted. */
  function MinuteRows(raw: seq<Row>, k: Key): seq<Row> {
    Filter(raw, InMinute(k.monitor, k.bucket))
  }

  /** The entry counts the first `n` rows inserted for its minute, at least one. */
  ghost predicate CountsFirst(raw: seq<Row>, k: Key, a: Agg, n: nat) {
    0 < n <= |MinuteRows(raw, k)| && a == Aggregate(MinuteRows(raw, k)[..n], AllRows())
  }

  ghost predicate CountsPrefix(raw: seq<Row>, k: Key, a: Agg) {
    exists n :: CountsFirst(raw, k, a, n)
  }

  lemma {:induction false} AggregateOfFiltered(rows: seq<Row>, p: Row -> bool)
    ensures Aggregate(Filter(rows, p), AllRows()) == Aggregate(rows, p)
  {
    if rows != [] {
      var init, last := rows[..|rows| - 1], rows[|rows| - 1];
      AggregateOfFiltered(init, p);
      if p(last) {
        AggregateAppend(Filter(init, p), last, AllRows());
      }
    }
  }

  // ── The invariant: no assumption on delays or on start-up reads ─────────────

  ghost predicate Aligned(w: World) {
    && (w.phase.Waiting? ==> w.phase.next % 60 == 0)
    && (w.phase.Rolling? ==> w.phase.from % 60 == 0 && w.phase.nowMin % 60 == 0)
    && (forall k :: k in w.table ==> k.bucket % 60 == 0)
  }

  ghost predicate PrefixesOk(w: World) {
    forall k :: k in w.table && CutOf(w, k.monitor) <= k.bucket * 1000 ==> CountsPrefix(w.raw, k, w.table[k])
  }

  lemma GroupsAligned(raw: seq<Row>, from: nat, to: nat, k: Key)
    requires k in Groups(raw, from, to)
    ensures k.bucket % 60 == 0
  {
    var r :| r in raw && k.bucket == Minute(r.at);
    MinuteFacts(r.at);
  }

  lemma ChunkAligned(w: World)
    requires Aligned(w) && Enabled(w, ChunkDone)
    ensures Aligned(Next(w, ChunkDone))
  {
    var from, to := w.phase.from, ChunkEnd(w.phase.from, w.phase.nowMin);
    forall k | k in RollRange(w.table, w.raw, from, to)
      ensures k.bucket % 60 == 0
    {
      if k in Groups(w.raw, from, to) {
        GroupsAligned(w.raw, from, to, k);
      }
    }
  }

  lemma StepKeepsAligned(w: World, e: Event)
    requires Aligned(w) && Enabled(w, e)
    ensures Aligned(Next(w, e))
  {
    MinuteFacts(w.now);
    match e
    case ChunkDone =>
      ChunkAligned(w);
    case TickStart =>
    case StartFromWatermark(top) =>
      var k :| k in w.table && k.bucket == top;
    case StartFromRaw =>
      if w.raw != [] {
        MinuteFacts(EarliestStamp(w.raw));
      }
    case _ =>
  }

  /** A row that comes in late leaves the counted prefix as it was. */
  lemma AppendKeepsPrefix(raw: seq<Row>, row: Row, k: Key, a: Agg)
    requires CountsPrefix(raw, k, a)
    ensures CountsPrefix(raw + [row], k, a)
  {
    var n: nat :| CountsFirst(raw, k, a, n);
    FilterAppend(raw, row, InMinute(k.monitor, k.bucket));
    assert MinuteRows(raw + [row], k)[..n] == MinuteRows(raw, k)[..n];
    assert CountsFirst(raw + [row], k, a, n);
  }

  lemma WholeMinuteIsPrefix(raw: seq<Row>, k: Key)
    requires HasRows(raw, k.monitor, k.bucket)
    ensures CountsPrefix(raw, k, Aggregate(raw, InMinute(k.monitor, k.bucket)))
  {
    var rows := MinuteRows(raw, k);
    AggregateOfFiltered(raw, InMinute(k.monitor, k.bucket));
    var r :| r in raw && InMinute(k.monitor, k.bucket)(r);
    assert r in rows && rows[..|rows|] == rows;
    assert CountsFirst(raw, k, Aggregate(raw, InMinute(k.monitor, k.bucket)), |rows|);
  }

  lemma ChunkPrefix(w: World, k: Key)
    requires Aligned(w) && PrefixesOk(w) && Enabled(w, ChunkDone)
    requires k in Next(w, ChunkDone).table && CutOf(w, k.monitor) <= k.bucket * 1000
    ensures CountsPrefix(w.raw, k, Next(w, ChunkDone).table[k])
  {
    assert k == Key(k.monitor, k.bucket);
    var from, to := w.phase.from, ChunkEnd(w.phase.from, w.phase.nowMin);
    assert Next(w, ChunkDone).table == RollRange(w.table, w.raw, from, to) && to % 60 == 0;
    RollRangeAt(w.table, w.raw, from, to, k.monitor, k.bucket);
    if from <= k.bucket < to && HasRows(w.raw, k.monitor, k.bucket) {
      WholeMinuteIsPrefix(w.raw, k);
    }
  }

  lemma StepKeepsPrefixes(w: World, e: Event)
    requires Aligned(w) && PrefixesOk(w) && Enabled(w, e)
    ensures PrefixesOk(Next(w, e))
  {
    var w' := Next(w, e);
    forall k | k in w'.table && CutOf(w', k.monitor) <= k.bucket * 1000
      ensures CountsPrefix(w'.raw, k, w'.table[k])
    {
      match e
      case Insert(row) => AppendKeepsPrefix(w.raw, row, k, w.table[k]);
      case ChunkDone => ChunkPrefix(w, k);
      case PruneRaw(m, c) => DeleteKeepsPrefix(w, Survives(m, c), k);
      case DeleteResults(m) => DeleteKeepsPrefix(w, NotOf(m), k);
      case _ => assert CutOf(w, k.monitor) <= CutOf(w', k.monitor);
    }
  }

  lemma DeleteKeepsPrefix(w: World, keep: Row -> bool, k: Key)
    requires k in w.table && CountsPrefix(w.raw, k, w.table[k])
    requires forall r :: r in w.raw && InMinute(k.monitor, k.bucket)(r) ==> keep(r)
    ensures CountsPrefix(Filter(w.raw, keep), k, w.table[k])
  {
    FilterTwice(w.raw, keep, InMinute(k.monitor, k.bucket));
    var n: nat :| CountsFirst(w.raw, k, w.table[k], n);
    assert CountsFirst(Filter(w.raw, keep), k, w.table[k], n);
  }

  /** On every run, however late its rows and whatever fails, a table row that no
      prune has reached is the aggregate of the first rows inserted for its
      minute: it counts no row twice, none of another minute, and skips none
      that came before one it counts. */
  lemma {:induction false} EntriesCountPrefixes(w: World, events: seq<Event>)
    requires Aligned(w) && PrefixesOk(w) && Runs(w, events)
    ensures PrefixesOk(After(w, events))
    decreases |events|
  {
    if events != [] {
      StepKeepsAligned(w, events[0]);
      StepKeepsPrefixes(w, events[0]);
      EntriesCountPrefixes(Next(w, events[0]), events[1..]);
    }
  }

  // ── Uptime on every run ─────────────────────────────────────────────────────

  /** Below this, every minute that no prune has reached is right. */
  function Settlement(w: World): nat {
    if w.delay == 0 then w.high else if w.high >= 60 then w.high - 60 else 0
  }

  /** Rows of one monitor whose minute lies in [lo, hi). */
  function MinutesIn(m: int, lo: nat, hi: nat): Row -> bool {
    (r: Row) => r.monitor == Some(m) && lo <= Minute(r.at) < hi
  }

  lemma {:induction false} JoinAllConcat(a: seq<Agg>, b: seq<Agg>)
    ensures JoinAll(a + b) == Join(JoinAll(a), JoinAll(b))
  {
    if b == [] {
      assert a + b == a;
      JoinNothing(JoinAll(a));
    } else {
      var init, last := b[..|b| - 1], b[|b| - 1];
      JoinAllConcat(a, init);
      assert (a + b)[..|a + b| - 1] == a + init;
      JoinSingle(JoinAll(a), JoinAll(init), last);
    }
  }

  lemma {:induction false} TableRowsSplit(t: Table, m: int, lo: nat, mid: nat, hi: nat, p: nat -> bool)
    requires lo <= mid <= hi
    ensures TableRows(t, m, lo, hi, p) == TableRows(t, m, lo, mid, p) + TableRows(t, m, mid, hi, p)
    decreases hi
  {
    if mid < hi {
      TableRowsSplit(t, m, lo, mid, hi - 1, p);
    }
  }

  /** What an uptime window counts, in two parts: its settled minutes, and the
      latest ones. */
  lemma RolledInTwo(t: Table, m: int, from: nat, mid: nat)
    requires from <= mid
    ensures Rolled(t, m, from) == Join(JoinAll(TableRows(t, m, from, mid, Any())), Rolled(t, m, mid))
  {
    var h := Horizon(t.Keys);
    if mid <= h {
      TableRowsSplit(t, m, from, mid, h, Any());
      JoinAllConcat(TableRows(t, m, from, mid, Any()), TableRows(t, m, mid, h, Any()));
    } else {
      NothingBeyond(t, m, from, h, mid, Any());
      if from <= h {
        assert TableRows(t, m, mid, h, Any()) == [];
      }
      JoinNothing(JoinAll(TableRows(t, m, from, mid, Any())));
    }
  }

  /** Where the table is right, its rows add up to the raw rows. */
  lemma SettledPart(raw: seq<Row>, t: Table, m: int, from: nat, to: nat)
    requires forall b :: from <= b < to ==> Coherent(raw, t, m, b)
    ensures JoinAll(TableRows(t, m, from, to, Any())) == Aggregate(raw, MinutesIn(m, from, to))
  {
    forall b | from <= b < to && Key(m, b) in t
      ensures t[Key(m, b)] == Aggregate(raw, InMinute(m, b)) && HasRows(raw, m, b)
    {
      assert Coherent(raw, t, m, b);
    }
    Regroup(raw, t, m, from, to, Any());
    forall r | r in raw
      ensures Behind(t, m, from, to, Any())(r) <==> MinutesIn(m, from, to)(r)
    {
      if MinutesIn(m, from, to)(r) {
        assert Coherent(raw, t, m, Minute(r.at));
        assert InMinute(m, Minute(r.at))(r);
      }
    }
    AggregateCong(raw, Behind(t, m, from, to, Any()), MinutesIn(m, from, to));
  }

  ghost predicate LatestCountPrefixes(raw: seq<Row>, t: Table, m: int, from: nat) {
    forall b :: from <= b && Key(m, b) in t ==> CountsPrefix(raw, Key(m, b), t[Key(m, b)])
  }

  lemma LatestOnEveryRun(w: World, events: seq<Event>, m: int, from: nat)
    requires Init(w) && Runs(w, events) && CutOf(After(w, events), m) <= from * 1000
    ensures LatestCountPrefixes(After(w, events).raw, After(w, events).table, m, from)
  {
    EntriesCountPrefixes(w, events);
  }

  lemma SettledOnEveryRun(w: World, events: seq<Event>, m: int, b: nat)
    requires Init(w) && w.delay <= OVERLAP_MS && !w.blind && Runs(w, events)
    requires CutOf(After(w, events), m) <= b * 1000 && b < Settlement(After(w, events))
    ensures Coherent(After(w, events).raw, After(w, events).table, m, b)
  {
    DelayStays(w, events);
    RightByMargin(w, events, if w.delay == 0 then 0 else 60, m, b);
  }

  /** On every run, an uptime window that opens above the prunes counts each row of
      its settled minutes exactly once, and of every later minute that has been
      rolled the first rows inserted for it. */
  lemma UptimeOnEveryRun(w: World, events: seq<Event>, m: int, from: nat)
    requires Init(w) && w.delay <= OVERLAP_MS && !w.blind && Runs(w, events)
    requires CutOf(After(w, events), m) <= from * 1000 && from <= Settlement(After(w, events))
    ensures var end := After(w, events);
            var settled := Settlement(end);
            && Rolled(end.table, m, from) ==
                 Join(Aggregate(end.raw, MinutesIn(m, from, settled)), Rolled(end.table, m, settled))
            && LatestCountPrefixes(end.raw, end.table, m, settled)
  {
    var end := After(w, events);
    var settled := Settlement(end);
    LatestOnEveryRun(w, events, m, settled);
    RolledInTwo(end.table, m, from, settled);
    forall b | from <= b < settled
      ensures Coherent(end.raw, end.table, m, b)
    {
      SettledOnEveryRun(w, events, m, b);
    }
    SettledPart(end.raw, end.table, m, from, settled);
  }

  /** The percentage that the query returns on such a run, once it has data: the share of
      'up' rows among the settled rows and the counted part of the latest minutes. */
  lemma FigureOnEveryRun(w: World, events: seq<Event>, m: int, nowMs: nat, window: nat)
    requires Init(w) && w.delay <= OVERLAP_MS && !w.blind && Runs(w, events)
    requires DAY <= window && window * 1000 <= nowMs
    requires var end, from := After(w, events), (nowMs - window * 1000) / 1000;
             CutOf(end, m) <= from * 1000 && from <= Settlement(end) && Rolled(end.table, m, from).count > 0
    ensures var end, from := After(w, events), (nowMs - window * 1000) / 1000;
            var settled := MinutesIn(m, from, Settlement(end));
            var latest := Rolled(end.table, m, Settlement(end));
            var figure := GetUptime(end.raw, end.table, m, nowMs, window);
            && figure.Some?
            && IsShareUp(figure, |Filter(end.raw, settled)| + latest.count,
                         |Filter(end.raw, UpOnly(settled))| + latest.up)
  {
    var end, from := After(w, events), (nowMs - window * 1000) / 1000;
    UptimeOnEveryRun(w, events, m, from);
    AggregateCounts(end.raw, MinutesIn(m, from, Settlement(end)));
    PercentIsShare(Rolled(end.table, m, from));
  }

  // ── When the latest minutes are counted in full, too ────────────────────────

  /** The table rows from `from` to the highest `next_from` count every row there. */
  ghost predicate FullBelowHigh(w: World, m: int, from: nat) {
    JoinAll(TableRows(w.table, m, from, w.high, Any())) == Aggregate(w.raw, MinutesIn(m, from, w.high))
  }

  ghost predicate AlwaysFull(delay: nat) {
    forall w, events, m, from :: Init(w) && w.delay == delay && !w.blind && Runs(w, events) ==>
      CutOf(After(w, events), m) <= from * 1000 ==> FullBelowHigh(After(w, events), m, from)
  }

  /** Every minute that has been rolled is counted in full on every run if and only if
      rows are inserted at their stamp; else the latest one can lack a row. */
  lemma FullExactly(delay: nat)
    requires delay <= OVERLAP_MS
    ensures AlwaysFull(delay) <==> delay == 0
  {
    if delay == 0 {
      forall w, events, m, from | Init(w) && w.delay == delay && !w.blind && Runs(w, events)
        && CutOf(After(w, events), m) <= from * 1000
        ensures FullBelowHigh(After(w, events), m, from)
      {
        FullWhenPunctual(w, events, m, from);
      }
    } else {
      var first, late := Row(Some(0), 0, true, Some(1), None), Row(Some(0), 59_999, true, Some(1), None);
      var w, events := MissedRowRun(delay, first, late);
      NotFull(After(w, events), first, late);
    }
  }

  lemma FullWhenPunctual(w: World, events: seq<Event>, m: int, from: nat)
    requires Init(w) && w.delay == 0 && !w.blind && Runs(w, events)
    requires CutOf(After(w, events), m) <= from * 1000
    ensures FullBelowHigh(After(w, events), m, from)
  {
    var end := After(w, events);
    DelayStays(w, events);
    forall b | from <= b < end.high
      ensures Coherent(end.raw, end.table, m, b)
    {
      SettledOnEveryRun(w, events, m, b);
    }
    SettledPart(end.raw, end.table, m, from, end.high);
  }

  /** When a monitor's table rows are those of one minute, their sum is that row. */
  lemma OnlyMinute(t: Table, m: int, b: nat, hi: nat)
    requires b < hi && Key(m, b) in t && forall k :: k in t && k.monitor == m ==> k.bucket == b
    ensures JoinAll(TableRows(t, m, b, hi, Any())).count == t[Key(m, b)].count
  {
    TableRowsSplit(t, m, b, b + 1, hi, Any());
    JoinAllConcat(TableRows(t, m, b, b + 1, Any()), TableRows(t, m, b + 1, hi, Any()));
    NextCount(t, m, b, b);
    SumHas(t, m, b + 1, hi);
  }

  lemma RowsOfMinuteZero(w: World, first: Row, late: Row)
    requires OfMinuteZero(first, late) && w.raw == [first, late] && w.high == 60
    ensures Aggregate(w.raw, MinutesIn(0, 0, w.high)) == Aggregate(w.raw, InMinute(0, 0))
  {
    AggregateCong(w.raw, MinutesIn(0, 0, w.high), InMinute(0, 0));
  }

  lemma NotFull(w: World, first: Row, late: Row)
    requires OfMinuteZero(first, late) && LacksLateRow(w, first, late)
    ensures !FullBelowHigh(w, 0, 0)
  {
    assert Key(0, 0) in w.table.Keys;
    OnlyMinute(w.table, 0, 0, w.high);
    RowsOfMinuteZero(w, first, late);
  }
}
