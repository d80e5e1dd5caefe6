/** The rollup loop itself: start-up, the chunked tick, and why chunks are exact. */
module RollupLoop {
  import opened Samples
  import opened Rollups
  import opened RollupRuns
  import opened RowCounts
  import opened RunRecords

  // ── Chunks against one roll of the whole range ──────────────────────────────

  lemma GroupsAt(raw: seq<Row>, from: nat, to: nat, k: Key)
    ensures k in Groups(raw, from, to) <==> Aggregate(raw, InGroup(k, from, to)).count > 0
  {
    AggregateNone(raw, InGroup(k, from, to));
    assert k in Groups(raw, from, to) <==> exists r :: r in raw && InGroup(k, from, to)(r);
  }

  /** What one roll leaves under a key: the group's aggregate, or what was there. */
  lemma RollValue(t: Table, raw: seq<Row>, from: nat, to: nat, k: Key)
    ensures var rolled, agg := RollRange(t, raw, from, to), Aggregate(raw, InGroup(k, from, to));
            if agg.count > 0 then k in rolled && rolled[k] == agg
            else (k in rolled <==> k in t) && (k in t ==> rolled[k] == t[k])
  {
    GroupsAt(raw, from, to, k);
  }

  lemma GroupSplit(raw: seq<Row>, a: nat, b: nat, c: nat, k: Key)
    requires a <= b <= c
    ensures Aggregate(raw, InGroup(k, a, c)) ==
            Join(Aggregate(raw, InGroup(k, a, b)), Aggregate(raw, InGroup(k, b, c)))
  {
    AggregateUnion(raw, InGroup(k, a, b), InGroup(k, b, c), InGroup(k, a, c));
  }

  /** Rolling [a, b) and then [b, c) gives the table of one roll of [a, c)
      exactly when no minute of any monitor has rows on both sides of `b`. */
  lemma SplitRollExact(t: Table, raw: seq<Row>, a: nat, b: nat, c: nat)
    requires a <= b <= c
    ensures RollRange(RollRange(t, raw, a, b), raw, b, c) == RollRange(t, raw, a, c) <==>
            Groups(raw, a, b) !! Groups(raw, b, c)
  {
    var two, one := RollRange(RollRange(t, raw, a, b), raw, b, c), RollRange(t, raw, a, c);
    assert Groups(raw, a, c) == Groups(raw, a, b) + Groups(raw, b, c);
    assert two.Keys == one.Keys;
    forall k | k in one
      ensures two[k] == one[k] <==> !(k in Groups(raw, a, b) && k in Groups(raw, b, c))
    {
      SplitRollAt(t, raw, a, b, c, k);
    }
    forall k | k in Groups(raw, a, b)
      ensures two == one ==> k !in Groups(raw, b, c)
    {
      assert k in one;
    }
  }

  lemma SplitRollAt(t: Table, raw: seq<Row>, a: nat, b: nat, c: nat, k: Key)
    requires a <= b <= c
    requires k in RollRange(t, raw, a, c)
    ensures k in RollRange(RollRange(t, raw, a, b), raw, b, c)
    ensures RollRange(RollRange(t, raw, a, b), raw, b, c)[k] == RollRange(t, raw, a, c)[k] <==>
            !(k in Groups(raw, a, b) && k in Groups(raw, b, c))
  {
    var left, right := Aggregate(raw, InGroup(k, a, b)), Aggregate(raw, InGroup(k, b, c));
    GroupSplit(raw, a, b, c, k);
    RollValue(t, raw, a, b, k);
    RollValue(RollRange(t, raw, a, b), raw, b, c, k);
    RollValue(t, raw, a, c, k);
    GroupsAt(raw, a, b, k);
    GroupsAt(raw, b, c, k);
    if left.count == 0 {
      AggregateNone(raw, InGroup(k, a, b));
      JoinNothing(right);
    } else if right.count == 0 {
      AggregateNone(raw, InGroup(k, b, c));
      JoinNothing(left);
    }
  }

  /** A whole-minute boundary never has one minute's rows on both of its sides. */
  lemma AlignedSplitRoll(t: Table, raw: seq<Row>, a: nat, b: nat, c: nat)
    requires a <= b <= c && b % 60 == 0
    ensures RollRange(RollRange(t, raw, a, b), raw, b, c) == RollRange(t, raw, a, c)
  {
    forall k | k in Groups(raw, a, b) && k in Groups(raw, b, c)
      ensures false
    {
      var r :| r in raw && r.at < b * 1000 && Minute(r.at) == k.bucket;
      var s :| s in raw && b * 1000 <= s.at && Minute(s.at) == k.bucket;
      MinuteInRange(r.at, 0, b);
      MinuteInRange(s.at, 0, b);
    }
    SplitRollExact(t, raw, a, b, c);
  }

  /** Rolling a range again over unchanged rows changes nothing, also when other
      ranges were rolled in between. */
  lemma RerollIsIdle(t: Table, raw: seq<Row>, a: nat, b: nat, c: nat, d: nat)
    requires a % 60 == 0 && b % 60 == 0 && c % 60 == 0 && d % 60 == 0
    ensures var rolled := RollRange(RollRange(t, raw, a, b), raw, c, d);
            RollRange(rolled, raw, a, b) == rolled
  {
    var rolled := RollRange(RollRange(t, raw, a, b), raw, c, d);
    var again := RollRange(rolled, raw, a, b);
    forall k: Key
      ensures (k in again <==> k in rolled) && (k in rolled ==> again[k] == rolled[k])
    {
      RollRangeAt(t, raw, a, b, k.monitor, k.bucket);
      RollRangeAt(RollRange(t, raw, a, b), raw, c, d, k.monitor, k.bucket);
      RollRangeAt(rolled, raw, a, b, k.monitor, k.bucket);
    }
  }

  lemma EmptyRoll(t: Table, raw: seq<Row>, a: nat)
    ensures RollRange(t, raw, a, a) == t
  {
    assert Groups(raw, a, a) == {};
  }

  // ── Traces of the loop ──────────────────────────────────────────────────────

  lemma {:induction false} ExtendRun(w: World, events: seq<Event>, e: Event)
    requires Runs(w, events) && Enabled(After(w, events), e)
    ensures Runs(w, events + [e])
    ensures After(w, events + [e]) == Next(After(w, events), e)
    decreases |events|
  {
    var longer := events + [e];
    if events == [] {
      assert longer[1..] == [];
      assert Runs(Next(w, e), []);
    } else {
      assert longer[1..] == events[1..] + [e];
      ExtendRun(Next(w, events[0]), events[1..], e);
    }
  }

  lemma OneMoreStep(w: World, events: seq<Event>, e: Event)
    requires Inv(w) && Runs(w, events) && Enabled(After(w, events), e)
    ensures Runs(w, events + [e])
    ensures After(w, events + [e]) == Next(After(w, events), e)
    ensures Inv(Next(After(w, events), e))
  {
    RunKeepsInv(w, events);
    StepKeepsInv(After(w, events), e);
    ExtendRun(w, events, e);
  }

  /** A chunk of a tick that began at `first`: one more step, still whole
      minutes, still the one roll from `first`. */
  lemma OneMoreChunk(w: World, events: seq<Event>, t: Table, first: nat)
    requires Inv(w) && Runs(w, events)
    requires var v := After(w, events);
             && v.phase.Rolling? && first <= v.phase.from < v.phase.nowMin
             && v.table == RollRange(t, v.raw, first, v.phase.from)
    ensures Runs(w, events + [ChunkDone])
    ensures var v := After(w, events);
            var to := ChunkEnd(v.phase.from, v.phase.nowMin);
            && After(w, events + [ChunkDone]) ==
               World(v.now, v.raw, RollRange(v.table, v.raw, v.phase.from, to), Rolling(to, v.phase.nowMin),
                     v.high, v.cut, v.delay, v.blind)
            && RollRange(v.table, v.raw, v.phase.from, to) == RollRange(t, v.raw, first, to)
            && to % 60 == 0 && v.phase.from < to <= v.phase.nowMin && to <= v.phase.from + 86_400
            && (to == v.phase.nowMin || to == v.phase.from + 86_400)
  {
    var v := After(w, events);
    RunKeepsInv(w, events);
    OneMoreStep(w, events, ChunkDone);
    AlignedSplitRoll(t, v.raw, first, v.phase.from, ChunkEnd(v.phase.from, v.phase.nowMin));
  }

  /** Leaving a tick, whichever way: one more step, and the invariant holds. */
  lemma LeaveTick(w: World, events: seq<Event>, e: Event)
    requires Inv(w) && Runs(w, events) && Enabled(After(w, events), e)
    requires e.ChunkFailed? || e.TickEnd?
    ensures var v := After(w, events);
            && Runs(w, events + [e])
            && After(w, events + [e]) == Reach(v, v.phase.from)
            && Inv(Reach(v, v.phase.from))
  {
    OneMoreStep(w, events, e);
  }

  lemma EarliestMinute(raw: seq<Row>)
    requires raw != []
    ensures forall r :: r in raw ==> Minute(EarliestStamp(raw)) <= Minute(r.at)
  {
    forall r | r in raw
      ensures Minute(EarliestStamp(raw)) <= Minute(r.at)
    {
      MinutesFollowTime(EarliestStamp(raw), r.at);
    }
  }

  class Worker {
    var now: nat
    var raw: seq<Row>
    var table: Table
    var nextFrom: nat
    ghost var high: nat
    ghost var cut: map<int, nat>
    ghost const delay: nat

    ghost function At(phase: Phase): World
      reads this
    {
      World(now, raw, table, phase, high, cut, delay, false)
    }

    ghost predicate Valid()
      reads this
    {
      Inv(At(Waiting(nextFrom)))
    }

    /** MAX(bucket_epoch) of the whole table. */
    method RollupWatermark() returns (top: Option<nat>)
      ensures IsWatermark(table, top)
    {
      top := None;
      var keys := table.Keys;
      while keys != {}
        invariant keys <= table.Keys
        invariant top.None? ==> keys == table.Keys
        invariant top.Some? ==> exists k :: k in table && k.bucket == top.value
        invariant forall k :: k in table && k !in keys ==> top.Some? && k.bucket <= top.value
      {
        var k :| k in keys;
        if top.None? || top.value < k.bucket {
          top := Some(k.bucket);
        }
        keys := keys - {k};
      }
      assert top.None? ==> table == map[];
    }

    /** Start-up with both reads succeeding: resume from the watermark, or from the
        earliest raw minute, or from the current minute. */
    method Start() returns (ghost trace: seq<Event>)
      requires Inv(At(Stopped))
      modifies this`nextFrom, this`high
      ensures Runs(old(At(Stopped)), trace)
      ensures After(old(At(Stopped)), trace) == At(Waiting(nextFrom))
      ensures table != map[] ==>
                (exists k :: k in table && k.bucket == nextFrom) && forall k :: k in table ==> k.bucket <= nextFrom
      ensures table == map[] && raw != [] ==>
                (exists r :: r in raw && Minute(r.at) == nextFrom) && forall r :: r in raw ==> nextFrom <= Minute(r.at)
      ensures table == map[] && raw == [] ==> nextFrom == Minute(now)
    {
      ghost var start := At(Stopped);
      var top := RollupWatermark();
      if top.Some? {
        nextFrom := top.value;
        trace := [] + [StartFromWatermark(top.value)];
        OneMoreStep(start, [], StartFromWatermark(top.value));
      } else {
        nextFrom := if raw == [] then now / 60_000 * 60 else EarliestStamp(raw) / 60_000 * 60;
        if raw != [] {
          EarliestMinute(raw);
        }
        OneMoreStep(start, [], StartEmpty);
        trace := [] + [StartEmpty];
        OneMoreStep(start, trace, StartFromRaw);
        trace := trace + [StartFromRaw];
      }
      high := if nextFrom > high then nextFrom else high;
    }

    /** One monitor's turn in the retention loop: raw rows first, then rollup rows
        from the cutoff in whole seconds; either statement may fail by itself. */
    method PruneMonitorResults(monitor: int, cutoffMs: nat, ghost phase: Phase) returns (ok: bool)
      modifies this`raw, this`cut
      ensures At(phase) == if ok then Next(old(At(phase)), PruneRaw(monitor, cutoffMs)) else old(At(phase))
      ensures ok ==> forall r :: r in raw <==> r in old(raw) && !(r.monitor == Some(monitor) && r.at < cutoffMs)
      ensures ok ==> KeepsExactly(old(raw), (r: Row) => r.monitor != Some(monitor) || r.at >= cutoffMs, raw)
    {
      ok := *;
      if ok {
        SurvivorsKept(raw, monitor, cutoffMs);
        raw := Filter(raw, Survives(monitor, cutoffMs));
        cut := RaiseCut(At(phase), monitor, cutoffMs);
      }
    }

    method PruneMonitorRollups(monitor: int, cutoffMs: nat, ghost phase: Phase) returns (ok: bool)
      modifies this`table, this`cut
      ensures At(phase) == if ok then Next(old(At(phase)), PruneTable(monitor, cutoffMs)) else old(At(phase))
      ensures ok ==>
                forall k :: k in table <==> k in old(table) && !(k.monitor == monitor && k.bucket < cutoffMs / 1000)
      ensures ok ==> forall k :: k in table ==> table[k] == old(table)[k]
    {
      ok := *;
      if ok {
        var cutoffEpoch := cutoffMs / 1000;
        table := map k | k in table && !(k.monitor == monitor && k.bucket < cutoffEpoch) :: table[k];
        cut := RaiseCut(At(phase), monitor, cutoffMs);
      }
    }

    /** The SQL statement; it may fail, and then it changes nothing. */
    method RollUpRange(from: nat, to: nat) returns (ok: bool)
      modifies this`table
      ensures table == if ok then RollRange(old(table), raw, from, to) else old(table)
    {
      ok := *;
      if ok {
        table := RollRange(table, raw, from, to);
      }
    }

    /** One tick.  Its chunks form a run of the step system, and together they
        have the effect of one roll from the overlap to where the tick stopped,
        which is the current minute unless a chunk failed. */
    method Tick() returns (ok: bool, ghost trace: seq<Event>)
      requires Valid()
      modifies this`table, this`nextFrom, this`high
      ensures Runs(old(At(Waiting(nextFrom))), trace)
      ensures After(old(At(Waiting(nextFrom))), trace) == At(Waiting(nextFrom))
      ensures Back(old(nextFrom)) <= nextFrom <= CurrentMinute(At(Stopped))
      ensures nextFrom % 60 == 0
      ensures ok ==> nextFrom == CurrentMinute(At(Stopped))
      ensures table == RollRange(old(table), raw, Back(old(nextFrom)), nextFrom)
    {
      ghost var start := At(Waiting(nextFrom));
      var nowMin := now / 60_000 * 60;
      var from := if nextFrom >= 60 then nextFrom - 60 else 0;
      trace := [] + [TickStart];
      OneMoreStep(start, [], TickStart);
      EmptyRoll(table, raw, from);
      ok := true;
      while from < nowMin
        invariant Back(old(nextFrom)) <= from <= nowMin == CurrentMinute(At(Stopped))
        invariant from % 60 == 0
        invariant Runs(start, trace) && After(start, trace) == At(Rolling(from, nowMin))
        invariant table == RollRange(old(table), raw, Back(old(nextFrom)), from)
        invariant ok
      {
        var to := if from + 86_400 <= nowMin then from + 86_400 else nowMin;
        assert to == ChunkEnd(from, nowMin);
        OneMoreChunk(start, trace, old(table), Back(old(nextFrom)));
        ok := RollUpRange(from, to);
        if !ok {
          break;
        }
        trace := trace + [ChunkDone];
        from := to;
      }
      ghost var last := if ok then TickEnd else ChunkFailed;
      LeaveTick(start, trace, last);
      trace := trace + [last];
      nextFrom := from;
      high := if from > high then from else high;
      assert After(start, trace) == At(Waiting(nextFrom));
    }
  }
}
