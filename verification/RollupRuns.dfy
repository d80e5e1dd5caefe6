/** Every run of the rollup loop beside the writers of the two tables.

One step is one SQL statement or one decision of the loop, so inserts, prunes
and deletions may fall between any two chunks of a tick, and the process may
stop and restart at any point. */
module RollupRuns {
  import opened Samples
  import opened Rollups

  /** Where the loop is.  `Starting` has read an empty watermark and is about to
      look for the earliest raw minute; `Rolling` is inside a tick. */
  datatype Phase = Stopped | Starting | Waiting(next: nat) | Rolling(from: nat, nowMin: nat)

  /** `now` is the clock in milliseconds, `high` the highest `next_from` ever
      reached, `cut` the highest prune cutoff used so far for each monitor.  Two
      things never change: `delay`, the longest a row may take from its stamp to
      its insertion, and `blind`, whether the reads of a start-up may fail. */
  datatype World = World(now: nat, raw: seq<Row>, table: Table, phase: Phase, high: nat, cut: map<int, nat>,
                         delay: nat, blind: bool)

  datatype Event =
    | Advance(to: nat)
    | Insert(row: Row)
    | TickStart
    | ChunkDone
    | ChunkFailed
    | TickEnd
    | Stop
    | StartFromWatermark(top: nat)
    | StartEmpty
    | StartFromRaw
    | StartBlind
    | PruneRaw(monitor: int, cutoffMs: nat)
    | PruneTable(monitor: int, cutoffMs: nat)
    | DeleteResults(monitor: int)

  /** The overlap of a tick, in milliseconds. */
  const OVERLAP_MS: nat := 60_000

  function CurrentMinute(w: World): nat { Minute(w.now) }

  function CutOf(w: World, m: int): nat { if m in w.cut then w.cut[m] else 0 }

  function RaiseCut(w: World, m: int, c: nat): map<int, nat> {
    w.cut[m := if c > CutOf(w, m) then c else CutOf(w, m)]
  }

  function Back(next: nat): nat { if next >= 60 then next - 60 else 0 }

  function ChunkEnd(from: nat, nowMin: nat): nat {
    if from + DAY <= nowMin then from + DAY else nowMin
  }

  function Reach(w: World, next: nat): World {
    w.(phase := Waiting(next), high := if next > w.high then next else w.high)
  }

  function EarliestStamp(rows: seq<Row>): (t: nat)
    requires rows != []
    ensures forall r :: r in rows ==> t <= r.at
    ensures exists r :: r in rows && r.at == t
  {
    var last := rows[|rows| - 1];
    if |rows| == 1 then last.at else
      var rest := EarliestStamp(rows[..|rows| - 1]);
      assert rows == rows[..|rows| - 1] + [last];
      if last.at < rest then last.at else rest
  }

  ghost predicate Enabled(w: World, e: Event) {
    match e
    case Advance(to) => w.now <= to
    case Insert(row) => row.at <= w.now <= row.at + w.delay
    case TickStart => w.phase.Waiting?
    case ChunkDone => w.phase.Rolling? && w.phase.from < w.phase.nowMin
    case ChunkFailed => w.phase.Rolling? && w.phase.from < w.phase.nowMin
    case TickEnd => w.phase.Rolling? && w.phase.from >= w.phase.nowMin
    case Stop => true
    case StartFromWatermark(top) => w.phase.Stopped? && IsWatermark(w.table, Some(top))
    case StartEmpty => w.phase.Stopped? && IsWatermark(w.table, None)
    case StartFromRaw => w.phase.Starting?
    case StartBlind => w.blind && (w.phase.Stopped? || w.phase.Starting?)
    case PruneRaw(_, _) => true
    case PruneTable(_, _) => true
    case DeleteResults(_) => true
  }

  function Next(w: World, e: Event): World {
    match e
    case Advance(to) => w.(now := to)
    case Insert(row) => w.(raw := w.raw + [row])
    case TickStart =>
      if w.phase.Waiting? then w.(phase := Rolling(Back(w.phase.next), CurrentMinute(w))) else w
    case ChunkDone =>
      if w.phase.Rolling? then
        var to := ChunkEnd(w.phase.from, w.phase.nowMin);
        w.(table := RollRange(w.table, w.raw, w.phase.from, to), phase := Rolling(to, w.phase.nowMin))
      else w
    case ChunkFailed => if w.phase.Rolling? then Reach(w, w.phase.from) else w
    case TickEnd => if w.phase.Rolling? then Reach(w, w.phase.from) else w
    case Stop => w.(phase := Stopped)
    case StartFromWatermark(top) => Reach(w, top)
    case StartEmpty => w.(phase := Starting)
    case StartFromRaw =>
      Reach(w, if w.raw == [] then CurrentMinute(w) else Minute(EarliestStamp(w.raw)))
    case StartBlind => Reach(w, CurrentMinute(w))
    case PruneRaw(m, c) =>
      w.(raw := Filter(w.raw, Survives(m, c)), cut := RaiseCut(w, m, c))
    case PruneTable(m, c) =>
      w.(table := map k | k in w.table && !(k.monitor == m && k.bucket < c / 1000) :: w.table[k],
         cut := RaiseCut(w, m, c))
    case DeleteResults(m) =>
      w.(raw := Filter(w.raw, NotOf(m)), table := map k | k in w.table && k.monitor != m :: w.table[k])
  }

  /** DELETE ... WHERE monitor_id = m AND checked_at < c keeps exactly these. */
  function Survives(m: int, c: nat): Row -> bool {
    (r: Row) => !(r.monitor == Some(m) && r.at < c)
  }

  function NotOf(m: int): Row -> bool {
    (r: Row) => r.monitor != Some(m)
  }

  /** Before the first start: any history, no rollup. */
  ghost predicate Init(w: World) {
    && w.table == map[] && w.phase == Stopped && w.high == 0 && w.cut == map[]
    && forall r :: r in w.raw ==> r.at <= w.now
  }

  ghost predicate Runs(w: World, events: seq<Event>)
    decreases |events|
  {
    events == [] || (Enabled(w, events[0]) && Runs(Next(w, events[0]), events[1..]))
  }

  function After(w: World, events: seq<Event>): World
    decreases |events|
  {
    if events == [] then w else After(Next(w, events[0]), events[1..])
  }

  // ── The invariant ───────────────────────────────────────────────────────────

  /** The minute of `b` had ended, and its last row had arrived, by the second `until`. */
  predicate Closed(w: World, b: nat, until: nat) {
    (b + 60) * 1000 + w.delay <= until * 1000
  }

  /** The table is right about every minute below `bound` that closed by the second
      `by`, where no prune has reached. */
  ghost predicate Settled(w: World, bound: nat, until: nat) {
    forall m: int, b: nat :: b < bound && Closed(w, b, until) && CutOf(w, m) <= b * 1000 ==>
                               Coherent(w.raw, w.table, m, b)
  }

  ghost predicate PhaseOk(w: World) {
    match w.phase
    case Stopped => true
    case Starting => w.table == map[]
    case Waiting(next) => next % 60 == 0 && next * 1000 <= w.now && next <= w.high && Settled(w, next, next)
    case Rolling(from, nowMin) =>
      from % 60 == 0 && nowMin % 60 == 0 && from <= nowMin && nowMin * 1000 <= w.now && Settled(w, from, nowMin)
  }

  ghost predicate Stamped(w: World) {
    forall r :: r in w.raw ==> r.at <= w.now
  }

  /** Every table row is a whole past minute, has raw rows behind it unless a
      prune reached that minute, and marks everything closed before it settled. */
  ghost predicate EntryOk(w: World, k: Key) {
    && k.bucket % 60 == 0
    && (k.bucket + 60) * 1000 <= w.now
    && (CutOf(w, k.monitor) <= k.bucket * 1000 ==> HasRows(w.raw, k.monitor, k.bucket))
    && Settled(w, k.bucket, k.bucket)
  }

  ghost predicate TableOk(w: World) {
    forall k :: k in w.table ==> EntryOk(w, k)
  }

  ghost predicate Inv(w: World) {
    && w.delay <= OVERLAP_MS && !w.blind
    && Stamped(w)
    && TableOk(w)
    && w.high % 60 == 0 && w.high * 1000 <= w.now
    && Settled(w, w.high, w.high)
    && PhaseOk(w)
  }

  /** No row and no table entry belongs to an instant that starts no minute. */
  lemma UnalignedCoherent(w: World, m: int, b: nat)
    requires TableOk(w) && b % 60 != 0
    ensures Coherent(w.raw, w.table, m, b)
  {
    forall r | r in w.raw
      ensures !InMinute(m, b)(r)
    {
      MinuteFacts(r.at);
    }
  }

  /** Once a minute is closed and the table is right about it, no step spoils it. */
  lemma StepKeepsCoherent(w: World, e: Event, m: int, b: nat)
    requires Inv(w) && Enabled(w, e)
    requires (b + 60) * 1000 + w.delay <= w.now
    requires CutOf(Next(w, e), m) <= b * 1000
    requires Coherent(w.raw, w.table, m, b)
    ensures Coherent(Next(w, e).raw, Next(w, e).table, m, b)
  {
    var p := InMinute(m, b);
    match e
    case Insert(row) =>
      MinuteFacts(row.at);
      AggregateAppend(w.raw, row, p);
    case ChunkDone =>
      ChunkMinute(w, m, b);
    case PruneRaw(m', c) =>
      FilterCoherent(w, Survives(m', c), m, b);
    case PruneTable(m', c) =>
    case DeleteResults(m') =>
      if m == m' {
      } else {
        FilterCoherent(w, NotOf(m'), m, b);
      }
    case _ =>
  }

  lemma FilterCoherent(w: World, keep: Row -> bool, m: int, b: nat)
    requires forall r :: r in w.raw && InMinute(m, b)(r) ==> keep(r)
    ensures HasRows(Filter(w.raw, keep), m, b) == HasRows(w.raw, m, b)
    ensures Aggregate(Filter(w.raw, keep), InMinute(m, b)) == Aggregate(w.raw, InMinute(m, b))
  {
    AggregateFilter(w.raw, keep, InMinute(m, b));
    var kept := Filter(w.raw, keep);
    if HasRows(w.raw, m, b) {
      var r :| r in w.raw && InMinute(m, b)(r);
      assert r in kept;
    }
  }

  /** A chunk makes every minute it covers right, and keeps right ones right. */
  lemma ChunkMinute(w: World, m: int, b: nat)
    requires Inv(w) && Enabled(w, ChunkDone)
    requires CutOf(w, m) <= b * 1000
    requires w.phase.from <= b < ChunkEnd(w.phase.from, w.phase.nowMin) || Coherent(w.raw, w.table, m, b)
    ensures Coherent(w.raw, Next(w, ChunkDone).table, m, b)
  {
    RollRangeAt(w.table, w.raw, w.phase.from, ChunkEnd(w.phase.from, w.phase.nowMin), m, b);
  }

  lemma StepKeepsSettled(w: World, e: Event, bound: nat, closed: nat)
    requires Inv(w) && Enabled(w, e)
    requires closed * 1000 <= w.now
    requires Settled(w, bound, closed)
    ensures Settled(Next(w, e), bound, closed)
  {
    var w' := Next(w, e);
    forall m: int, b: nat | b < bound && Closed(w, b, closed) && CutOf(w', m) <= b * 1000
      ensures Coherent(w'.raw, w'.table, m, b)
    {
      assert CutOf(w, m) <= CutOf(w', m);
      StepKeepsCoherent(w, e, m, b);
    }
  }

  /** Finishing a chunk settles everything below its end. */
  lemma ChunkSettles(w: World)
    requires Inv(w) && Enabled(w, ChunkDone)
    ensures var to := ChunkEnd(w.phase.from, w.phase.nowMin);
            Settled(Next(w, ChunkDone), to, w.phase.nowMin)
  {
    var w' := Next(w, ChunkDone);
    var to := ChunkEnd(w.phase.from, w.phase.nowMin);
    forall m: int, b: nat | b < to && Closed(w, b, w.phase.nowMin) && CutOf(w', m) <= b * 1000
      ensures Coherent(w'.raw, w'.table, m, b)
    {
      ChunkMinute(w, m, b);
    }
  }

  lemma ChunkEndAligned(from: nat, nowMin: nat)
    requires from % 60 == 0 && nowMin % 60 == 0
    ensures ChunkEnd(from, nowMin) % 60 == 0
  {
  }

  lemma ChunkKeys(w: World, from: nat, nowMin: nat, k: Key)
    requires from % 60 == 0 && nowMin % 60 == 0
    requires k in RollRange(w.table, w.raw, from, ChunkEnd(from, nowMin))
    ensures k in w.table || (from <= k.bucket < ChunkEnd(from, nowMin) && HasRows(w.raw, k.monitor, k.bucket))
  {
    ChunkEndAligned(from, nowMin);
    RolledKeys(w.table, w.raw, from, ChunkEnd(from, nowMin), k);
  }

  lemma ChunkEntry(w: World, k: Key)
    requires Inv(w) && Enabled(w, ChunkDone)
    requires k in Next(w, ChunkDone).table
    ensures EntryOk(Next(w, ChunkDone), k)
  {
    ChunkKeys(w, w.phase.from, w.phase.nowMin, k);
    if k in w.table {
      assert EntryOk(w, k);
      KeptEntry(w, k);
    } else {
      RolledEntry(w, k);
    }
  }

  lemma KeptEntry(w: World, k: Key)
    requires Inv(w) && Enabled(w, ChunkDone)
    requires EntryOk(w, k)
    ensures EntryOk(Next(w, ChunkDone), k)
  {
    StepKeepsSettled(w, ChunkDone, k.bucket, k.bucket);
  }

  lemma RolledEntry(w: World, k: Key)
    requires Inv(w) && Enabled(w, ChunkDone)
    requires w.phase.from <= k.bucket < ChunkEnd(w.phase.from, w.phase.nowMin)
    requires HasRows(w.raw, k.monitor, k.bucket)
    ensures EntryOk(Next(w, ChunkDone), k)
  {
    var r :| r in w.raw && InMinute(k.monitor, k.bucket)(r);
    MinuteFacts(r.at);
    ChunkSettles(w);
  }

  /** The steps of everyone but the loop. */
  predicate Outer(e: Event) {
    e.Advance? || e.Insert? || e.PruneRaw? || e.PruneTable? || e.DeleteResults?
  }

  lemma OuterEntry(w: World, e: Event, k: Key)
    requires Inv(w) && Enabled(w, e) && Outer(e)
    requires k in Next(w, e).table
    ensures EntryOk(Next(w, e), k)
  {
    var w' := Next(w, e);
    assert EntryOk(w, k);
    StepKeepsSettled(w, e, k.bucket, k.bucket);
    if CutOf(w', k.monitor) <= k.bucket * 1000 {
      var r :| r in w.raw && InMinute(k.monitor, k.bucket)(r);
      MinuteFacts(r.at);
      assert r in w'.raw;
    }
  }

  /** A start-up from an empty table skips nothing: no row is older than the
      earliest one, and none that is still to come falls before the overlap. */
  lemma EmptyStartSettled(w: World)
    requires Inv(w) && w.phase.Starting?
    ensures var next := Next(w, StartFromRaw).phase.next;
            next % 60 == 0 && next * 1000 <= w.now && Settled(w, next, next)
  {
    var next := Next(w, StartFromRaw).phase.next;
    MinuteFacts(w.now);
    if w.raw != [] {
      MinuteFacts(EarliestStamp(w.raw));
    }
    forall m: int, b: nat | b < next && Closed(w, b, next) && CutOf(w, m) <= b * 1000
      ensures Coherent(w.raw, w.table, m, b)
    {
      forall r | r in w.raw
        ensures !InMinute(m, b)(r)
      {
        assert EarliestStamp(w.raw) <= r.at;
        assert Minute(EarliestStamp(w.raw)) <= Minute(r.at);
      }
    }
  }

  /** The overlap: everything closed by the last `next_from` is below the start
      of the tick, or is rolled again by it. */
  lemma TickStartSettled(w: World)
    requires Inv(w) && w.phase.Waiting?
    ensures Settled(w, Back(w.phase.next), CurrentMinute(w))
  {
    forall m: int, b: nat | b < Back(w.phase.next) && CutOf(w, m) <= b * 1000
      ensures Coherent(w.raw, w.table, m, b)
    {
      if b % 60 != 0 {
        UnalignedCoherent(w, m, b);
      }
    }
  }

  lemma StepKeepsInv(w: World, e: Event)
    requires Inv(w) && Enabled(w, e)
    ensures Inv(Next(w, e))
  {
    if Outer(e) {
      OuterKeepsInv(w, e);
    } else if e.ChunkDone? {
      StepKeepsSettled(w, e, w.high, w.high);
      ChunkSettles(w);
      forall k | k in Next(w, e).table
        ensures EntryOk(Next(w, e), k)
      {
        ChunkEntry(w, k);
      }
    } else {
      LoopKeepsInv(w, e);
    }
  }

  lemma OuterKeepsInv(w: World, e: Event)
    requires Inv(w) && Enabled(w, e) && Outer(e)
    ensures Inv(Next(w, e))
  {
    StepKeepsSettled(w, e, w.high, w.high);
    StepKeepsPhase(w, e);
    forall k | k in Next(w, e).table
      ensures EntryOk(Next(w, e), k)
    {
      OuterEntry(w, e, k);
    }
  }

  /** The loop's own decisions move it without touching the tables. */
  lemma LoopKeepsInv(w: World, e: Event)
    requires Inv(w) && Enabled(w, e) && !Outer(e) && !e.ChunkDone?
    ensures Inv(Next(w, e))
  {
    SameTables(w, Next(w, e));
    LoopPosition(w, e);
  }

  /** Where a decision of the loop resumes, everything before has been settled. */
  lemma LoopPosition(w: World, e: Event)
    requires Inv(w) && Enabled(w, e) && !Outer(e) && !e.ChunkDone?
    ensures var p := Next(w, e).phase;
            && (p.Waiting? ==> p.next % 60 == 0 && p.next * 1000 <= w.now && Settled(w, p.next, p.next))
            && (p.Rolling? ==> p.from % 60 == 0 && p.nowMin % 60 == 0 && p.from <= p.nowMin && p.nowMin * 1000 <= w.now
                               && Settled(w, p.from, p.nowMin))
            && (p.Starting? ==> w.table == map[])
  {
    match e
    case TickStart =>
      TickStartSettled(w);
      TickPosition(w);
    case StartFromWatermark(top) =>
      WatermarkSettled(w, top);
    case StartFromRaw =>
      EmptyStartSettled(w);
    case _ =>
  }

  lemma TickPosition(w: World)
    requires w.phase.Waiting? && w.phase.next % 60 == 0 && w.phase.next * 1000 <= w.now
    ensures Back(w.phase.next) % 60 == 0 && CurrentMinute(w) % 60 == 0
    ensures Back(w.phase.next) <= CurrentMinute(w) && CurrentMinute(w) * 1000 <= w.now
  {
    MinuteFacts(w.now);
  }

  lemma WatermarkSettled(w: World, top: nat)
    requires Inv(w) && IsWatermark(w.table, Some(top))
    ensures top % 60 == 0 && top * 1000 <= w.now && Settled(w, top, top)
  {
    var k :| k in w.table && k.bucket == top;
    assert EntryOk(w, k);
  }

  /** A step that leaves the loop where it was keeps what its position promises. */
  lemma StepKeepsPhase(w: World, e: Event)
    requires Inv(w) && Enabled(w, e) && Outer(e)
    ensures PhaseOk(Next(w, e))
  {
    match w.phase
    case Waiting(next) => StepKeepsSettled(w, e, next, next);
    case Rolling(from, nowMin) => StepKeepsSettled(w, e, from, nowMin);
    case _ =>
  }

  lemma SameTables(w: World, w': World)
    requires w'.raw == w.raw && w'.table == w.table && w'.cut == w.cut && w'.now == w.now && w'.delay == w.delay
    requires TableOk(w)
    ensures TableOk(w')
    ensures forall bound, closed :: Settled(w, bound, closed) ==> Settled(w', bound, closed)
  {
    forall bound, closed | Settled(w, bound, closed)
      ensures Settled(w', bound, closed)
    {
      forall m: int, b: nat | b < bound && Closed(w, b, closed) && CutOf(w', m) <= b * 1000
        ensures Coherent(w'.raw, w'.table, m, b)
      {
        assert CutOf(w, m) <= b * 1000;
      }
    }
    forall k | k in w'.table
      ensures EntryOk(w', k)
    {
      assert EntryOk(w, k);
    }
  }

  // ── Safety over every run ───────────────────────────────────────────────────

  lemma {:induction false} RunKeepsInv(w: World, events: seq<Event>)
    requires Inv(w) && Runs(w, events)
    ensures Inv(After(w, events))
    decreases |events|
  {
    if events != [] {
      StepKeepsInv(w, events[0]);
      RunKeepsInv(Next(w, events[0]), events[1..]);
    }
  }

  /** The rollup is a materialised view: on every run, every minute more than a
      minute below the highest `next_from` ever reached, and not below its
      monitor's prune cutoff, has a table row exactly when it has raw rows, and
      that row is their aggregate. */
  lemma RollupMatchesRaw(w: World, events: seq<Event>, m: int, b: nat)
    requires Init(w) && w.delay <= OVERLAP_MS && !w.blind && Runs(w, events)
    ensures RightAbout(After(w, events), m, b)
  {
    RightByMargin(w, events, 60, m, b);
  }

  /** The same with another margin below the highest `next_from`: none is needed when
      every row is inserted at its stamp. */
  lemma RightByMargin(w: World, events: seq<Event>, slack: nat, m: int, b: nat)
    requires Init(w) && w.delay <= OVERLAP_MS && !w.blind && Runs(w, events)
    requires slack >= 60 || w.delay == 0
    ensures RightBelow(After(w, events), slack, m, b)
  {
    RunKeepsInv(w, events);
    DelayStays(w, events);
    if b % 60 != 0 {
      UnalignedCoherent(After(w, events), m, b);
    }
  }

  lemma {:induction false} DelayStays(w: World, events: seq<Event>)
    ensures After(w, events).delay == w.delay
    decreases |events|
  {
    if events != [] {
      DelayStays(Next(w, events[0]), events[1..]);
    }
  }

  ghost predicate RightBelow(w: World, slack: nat, m: int, b: nat) {
    b + slack < w.high && CutOf(w, m) <= b * 1000 ==> Coherent(w.raw, w.table, m, b)
  }

  ghost predicate RightAbout(w: World, m: int, b: nat) {
    RightBelow(w, 60, m, b)
  }

  ghost predicate AlwaysRight(delay: nat, blind: bool) {
    forall w, events, m, b :: Init(w) && w.delay == delay && w.blind == blind && Runs(w, events) ==>
      RightAbout(After(w, events), m, b)
  }

  /** Exactly what the loop needs: rows arrive within the one-minute overlap, and
      the reads of a start-up succeed.  A millisecond more, or one failed read,
      and some run leaves a minute wrong. */
  lemma NeedsAreExact(delay: nat, blind: bool)
    ensures AlwaysRight(delay, blind) <==> delay <= OVERLAP_MS && !blind
  {
    if delay > OVERLAP_MS {
      var w, events := LateRowRun(delay, blind);
      assert !RightAbout(After(w, events), 0, 0);
    } else if blind {
      var w, events := BlindRun(delay);
      assert !RightAbout(After(w, events), 0, 0);
    } else {
      forall w, events, m, b | Init(w) && w.delay == delay && w.blind == blind && Runs(w, events)
        ensures RightAbout(After(w, events), m, b)
      {
        RollupMatchesRaw(w, events, m, b);
      }
    }
  }

  ghost predicate AlwaysRightBelow(delay: nat, slack: nat) {
    forall w, events, m, b :: Init(w) && w.delay == delay && !w.blind && Runs(w, events) ==>
      RightBelow(After(w, events), slack, m, b)
  }

  /** How far below the highest `next_from` the table is right on every run: with
      rows that may come late by any time within the overlap it takes a whole
      minute and no less, with rows inserted at their stamp nothing. */
  lemma MarginIsExact(delay: nat, slack: nat)
    requires delay <= OVERLAP_MS
    ensures AlwaysRightBelow(delay, slack) <==> slack >= 60 || delay == 0
  {
    if slack >= 60 || delay == 0 {
      forall w, events, m, b | Init(w) && w.delay == delay && !w.blind && Runs(w, events)
        ensures RightBelow(After(w, events), slack, m, b)
      {
        RightByMargin(w, events, slack, m, b);
      }
    } else {
      var first, late := Row(Some(0), 0, true, Some(1), None), Row(Some(0), 59_999, true, Some(1), None);
      var w, events := MissedRowRun(delay, first, late);
      assert !RightBelow(After(w, events), slack, 0, 0);
    }
  }

  /** Rows of the first and of the last millisecond of minute 0. */
  predicate OfMinuteZero(first: Row, late: Row) {
    first.monitor == late.monitor == Some(0) && first.at == 0 && late.at == 59_999
  }

  /** The table row of minute 0 counts the first row and lacks the late one. */
  ghost predicate LacksLateRow(w: World, first: Row, late: Row) {
    && w.high == 60 && w.cut == map[] && w.raw == [first, late]
    && w.table.Keys == {Key(0, 0)} && w.table[Key(0, 0)].count == 1
    && Aggregate(w.raw, InMinute(0, 0)).count == 2
  }

  /** Minute 0 has a row and is rolled at its end; a row stamped in its last
      millisecond arrives after that.  The table lacks it until the next tick. */
  lemma MissedRowRun(delay: nat, first: Row, late: Row) returns (w: World, events: seq<Event>)
    requires delay > 0 && OfMinuteZero(first, late)
    ensures Init(w) && w.delay == delay && !w.blind && Runs(w, events)
    ensures LacksLateRow(After(w, events), first, late)
  {
    w := World(0, [first], map[], Stopped, 0, map[], delay, false);
    var w1 := w.(phase := Starting);
    var w2 := w.(phase := Waiting(0));
    var w3 := w2.(now := 60_000);
    var w4 := w3.(phase := Rolling(0, 60));
    assert EarliestStamp([first]) == 0;
    events := MissedRowTail(w4, first, late);
    RunFrom(w3, TickStart, events);
    events := [TickStart] + events;
    RunFrom(w2, Advance(60_000), events);
    events := [Advance(60_000)] + events;
    RunFrom(w1, StartFromRaw, events);
    events := [StartFromRaw] + events;
    RunFrom(w, StartEmpty, events);
    events := [StartEmpty] + events;
  }

  lemma MissedRowTail(w: World, first: Row, late: Row) returns (events: seq<Event>)
    requires OfMinuteZero(first, late) && w.delay > 0 && w.now == 60_000 && w.raw == [first]
    requires w.table == map[] && w.cut == map[] && w.high == 0 && w.phase == Rolling(0, 60)
    ensures Runs(w, events) && LacksLateRow(After(w, events), first, late)
  {
    var w1 := Next(w, ChunkDone);
    var w2 := Next(w1, TickEnd);
    FirstMinute(first);
    TwoInMinute(first, late);
    assert [first] + [late] == [first, late];
    events := [Insert(late)];
    RunFrom(w2, Insert(late), []);
    RunFrom(w1, TickEnd, events);
    events := [TickEnd] + events;
    RunFrom(w, ChunkDone, events);
    events := [ChunkDone] + events;
  }

  lemma FirstMinute(row: Row)
    requires row.monitor == Some(0) && row.at == 0
    ensures var t := RollRange(map[], [row], 0, 60); t.Keys == {Key(0, 0)} && t[Key(0, 0)].count == 1
  {
    assert row in [row] && Minute(row.at) == 0;
    assert Groups([row], 0, 60) == {Key(0, 0)};
    assert [] + [row] == [row];
    AggregateAppend([], row, InGroup(Key(0, 0), 0, 60));
  }

  lemma TwoInMinute(first: Row, late: Row)
    requires OfMinuteZero(first, late)
    ensures Aggregate([first, late], InMinute(0, 0)).count == 2
  {
    AggregatePair(first, late, InMinute(0, 0));
  }

  /** A start-up that cannot read the watermark takes the current minute and never
      rolls the history before it. */
  lemma BlindRun(delay: nat) returns (w: World, events: seq<Event>)
    ensures Init(w) && w.delay == delay && w.blind && Runs(w, events)
    ensures !RightAbout(After(w, events), 0, 0)
  {
    var row := Row(Some(0), 0, true, Some(1), None);
    w := World(180_000, [row], map[], Stopped, 0, map[], delay, true);
    events := [] + [StartBlind];
    RunFrom(w, StartBlind, []);
    assert [StartBlind] + [] == events;
    assert row in w.raw && InMinute(0, 0)(row);
  }

  /** A row stamped at the end of minute 0 arrives 60.001 s later, after a tick
      that went past minute 1; the next tick starts above it. */
  lemma LateRowRun(delay: nat, blind: bool) returns (w: World, events: seq<Event>)
    requires delay > OVERLAP_MS
    ensures Init(w) && w.delay == delay && w.blind == blind && Runs(w, events)
    ensures !RightAbout(After(w, events), 0, 0)
  {
    w := World(0, [], map[], Stopped, 0, map[], delay, blind);
    var w1 := w.(phase := Starting);
    var w2 := w.(phase := Waiting(0));
    var w3 := w2.(now := 120_000);
    var w4 := w3.(phase := Rolling(0, 120));
    assert Groups([], 0, 120) == {};
    assert Next(w4, ChunkDone) == w3.(phase := Rolling(120, 120));
    events := LateTail(delay, blind);
    RunFrom(w4, ChunkDone, events);
    events := [ChunkDone] + events;
    RunFrom(w3, TickStart, events);
    events := [TickStart] + events;
    RunFrom(w2, Advance(120_000), events);
    events := [Advance(120_000)] + events;
    RunFrom(w1, StartFromRaw, events);
    events := [StartFromRaw] + events;
    RunFrom(w, StartEmpty, events);
    events := [StartEmpty] + events;
  }

  lemma LateTail(delay: nat, blind: bool) returns (events: seq<Event>)
    requires delay > OVERLAP_MS
    ensures var w := World(120_000, [], map[], Rolling(120, 120), 0, map[], delay, blind);
            Runs(w, events) && !RightAbout(After(w, events), 0, 0)
  {
    var row := Row(Some(0), 59_999, true, Some(1), None);
    var w5 := World(120_000, [], map[], Rolling(120, 120), 0, map[], delay, blind);
    var w6 := w5.(phase := Waiting(120), high := 120);
    var w7 := w6.(raw := [row]);
    var w8 := w7.(phase := Rolling(60, 120));
    var w9 := w7.(phase := Rolling(120, 120));
    assert Groups([row], 60, 120) == {};
    assert Next(w8, ChunkDone) == w9;
    events := [TickEnd];
    RunFrom(w9, TickEnd, []);
    RunFrom(w8, ChunkDone, events);
    events := [ChunkDone] + events;
    RunFrom(w7, TickStart, events);
    events := [TickStart] + events;
    assert Next(w6, Insert(row)) == w7;
    RunFrom(w6, Insert(row), events);
    events := [Insert(row)] + events;
    RunFrom(w5, TickEnd, events);
    events := [TickEnd] + events;
    assert InMinute(0, 0)(row);
    assert row in After(w5, events).raw;
  }

  lemma RunFrom(w: World, e: Event, events: seq<Event>)
    requires Enabled(w, e) && Runs(Next(w, e), events)
    ensures Runs(w, [e] + events)
    ensures After(w, [e] + events) == After(Next(w, e), events)
  {
    assert ([e] + events)[1..] == events;
  }
}
