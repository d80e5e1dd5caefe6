/** What the records of a run stand for, and what its deleting steps delete. */
module RunRecords {
  import opened Samples
  import opened RowCounts
  import opened Rollups
  import opened RollupRuns

  // ── Deleting steps ──────────────────────────────────────────────────────────

  /** A prune of raw rows takes exactly the monitor's rows stamped before the cutoff,
      a prune of the table exactly its entries before the cutoff's second, and a
      deletion everything of the monitor in both; what stays is as it was. */
  lemma DeletingSteps(w: World, m: int, cutoffMs: nat)
    ensures var pruned := Next(w, PruneRaw(m, cutoffMs));
            && KeepsExactly(w.raw, (r: Row) => r.monitor != Some(m) || r.at >= cutoffMs, pruned.raw)
            && pruned.table == w.table
    ensures var pruned := Next(w, PruneTable(m, cutoffMs));
            && pruned.raw == w.raw
            && (forall k :: k in pruned.table <==> k in w.table && !(k.monitor == m && k.bucket < cutoffMs / 1000))
            && (forall k :: k in pruned.table ==> pruned.table[k] == w.table[k])
    ensures var deleted := Next(w, DeleteResults(m));
            && KeepsExactly(w.raw, (r: Row) => r.monitor != Some(m), deleted.raw)
            && (forall k :: k in deleted.table <==> k in w.table && k.monitor != m)
            && (forall k :: k in deleted.table ==> deleted.table[k] == w.table[k])
  {
    SurvivorsKept(w.raw, m, cutoffMs);
    FilterKeepsAs(w.raw, NotOf(m), (r: Row) => r.monitor != Some(m));
  }

  lemma SurvivorsKept(rows: seq<Row>, m: int, cutoffMs: nat)
    ensures KeepsExactly(rows, (r: Row) => r.monitor != Some(m) || r.at >= cutoffMs,
                         Filter(rows, Survives(m, cutoffMs)))
  {
    FilterKeepsAs(rows, Survives(m, cutoffMs), (r: Row) => r.monitor != Some(m) || r.at >= cutoffMs);
  }

  // ── The highest cutoff ──────────────────────────────────────────────────────

  /** The cutoff that the step uses for the monitor, if it prunes it. */
  function CutoffIn(e: Event, m: int): Option<nat> {
    match e
    case PruneRaw(victim, c) => if victim == m then Some(c) else None
    case PruneTable(victim, c) => if victim == m then Some(c) else None
    case _ => None
  }

  lemma StepCut(w: World, e: Event, m: int)
    ensures CutOf(Next(w, e), m) ==
            if CutoffIn(e, m).Some? && CutoffIn(e, m).value > CutOf(w, m) then CutoffIn(e, m).value else CutOf(w, m)
  {
  }

  /** The recorded cutoff of a monitor is the highest that any prune of it has used on
      the run, or the one from before. */
  lemma {:induction false} CutIsHighest(w: World, events: seq<Event>, m: int)
    ensures CutOf(w, m) <= CutOf(After(w, events), m)
    ensures forall i :: 0 <= i < |events| && CutoffIn(events[i], m).Some? ==>
              CutoffIn(events[i], m).value <= CutOf(After(w, events), m)
    ensures CutOf(After(w, events), m) == CutOf(w, m) ||
            exists i :: 0 <= i < |events| && CutoffIn(events[i], m) == Some(CutOf(After(w, events), m))
    decreases |events|
  {
    if events != [] {
      var next, rest := Next(w, events[0]), events[1..];
      StepCut(w, events[0], m);
      CutIsHighest(next, rest, m);
      assert forall i :: 0 < i < |events| ==> events[i] == rest[i - 1];
      if i :| 0 <= i < |rest| && CutoffIn(rest[i], m) == Some(CutOf(After(w, events), m)) {
        assert events[i + 1] == rest[i];
      }
    }
  }

  // ── The highest `next_from` ─────────────────────────────────────────────────

  /** The loop waits at `next` after some steps of the run. */
  ghost predicate WaitsAt(w: World, events: seq<Event>, next: nat) {
    exists k: nat :: k <= |events| && After(w, events[..k]).phase == Waiting(next)
  }

  lemma StepHigh(w: World, e: Event)
    ensures w.high <= Next(w, e).high
    ensures Next(w, e).high == w.high || Next(w, e).phase == Waiting(Next(w, e).high)
    ensures Next(w, e).phase.Waiting? ==> Next(w, e).phase == w.phase || Next(w, e).phase.next <= Next(w, e).high
  {
  }

  lemma WaitsLater(w: World, events: seq<Event>, next: nat)
    requires events != []
    ensures WaitsAt(Next(w, events[0]), events[1..], next) ==> WaitsAt(w, events, next)
    ensures WaitsAt(w, events, next) ==> w.phase == Waiting(next) || WaitsAt(Next(w, events[0]), events[1..], next)
  {
    if k: nat :| k <= |events| - 1 && After(Next(w, events[0]), events[1..][..k]).phase == Waiting(next) {
      assert events[..k + 1][1..] == events[1..][..k];
    }
    if k: nat :| k <= |events| && After(w, events[..k]).phase == Waiting(next) {
      if k > 0 {
        assert events[..k][1..] == events[1..][..k - 1];
      }
    }
  }

  lemma WaitsNow(w: World, events: seq<Event>, next: nat)
    requires w.phase == Waiting(next)
    ensures WaitsAt(w, events, next)
  {
    assert After(w, events[..0]) == w;
  }

  /** The recorded mark is the highest `next_from` at which the loop has waited on the
      run, or the mark from before. */
  lemma {:induction false} HighIsHighest(w: World, events: seq<Event>)
    requires w.phase.Waiting? ==> w.phase.next <= w.high
    ensures w.high <= After(w, events).high
    ensures forall next: nat :: WaitsAt(w, events, next) ==> next <= After(w, events).high
    ensures After(w, events).high == w.high || WaitsAt(w, events, After(w, events).high)
    decreases |events|
  {
    if events != [] {
      var next := Next(w, events[0]);
      StepHigh(w, events[0]);
      HighIsHighest(next, events[1..]);
      forall at: nat | WaitsAt(w, events, at)
        ensures at <= After(w, events).high
      {
        WaitsLater(w, events, at);
      }
      WaitsLater(w, events, After(w, events).high);
      if next.high != w.high {
        WaitsNow(next, events[1..], next.high);
      }
    }
  }
}
