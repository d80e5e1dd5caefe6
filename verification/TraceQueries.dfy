/** The traceroute detail query over the interned tables, against the plain list. */
module TraceQueries {
  import opened Samples
  import opened Slots
  import opened TraceStore

  // ── Figures of one hop number ───────────────────────────────────────────────

  /** COUNT, the number with an address, SUM(loss), MIN, the two parts of AVG, MAX. */
  datatype Figures = Figures(samples: nat, responded: nat, loss: nat, lo: Option<nat>, sumAvg: nat, numAvg: nat,
                             hi: Option<nat>)

  const NO_FIGURES := Figures(0, 0, 0, None, 0, 0, None)

  function AddHop(f: Figures, responded: bool, h: HopInput): Figures {
    Figures(f.samples + 1, f.responded + (if responded then 1 else 0), f.loss + h.loss,
            MinOpt(f.lo, h.minUs), f.sumAvg + (if h.avgUs.Some? then h.avgUs.value else 0),
            f.numAvg + (if h.avgUs.Some? then 1 else 0), MaxOpt(f.hi, h.maxUs))
  }

  function PlainFigures(hops: seq<HopInput>, no: nat): Figures {
    if hops == [] then NO_FIGURES else
      var rest, last := PlainFigures(hops[..|hops| - 1], no), hops[|hops| - 1];
      if last.no == no then AddHop(rest, last.addr.Some?, last) else rest
  }

  /** One row of the detail table, RTTs in milliseconds. */
  datatype HopAgg = HopAgg(addr: Option<Addr>, reachable: bool, samples: nat, loss: nat,
                           minMs: Option<real>, avgMs: Option<real>, maxMs: Option<real>)

  function Ms(us: Option<nat>): Option<real> {
    if us.Some? then Some(us.value as real / 1000.0) else None
  }

  function ToAgg(f: Figures, addr: Option<Addr>): Option<HopAgg> {
    if f.samples == 0 then None else
      Some(HopAgg(addr, f.responded > 0, f.samples, f.loss, Ms(f.lo),
                  if f.numAvg > 0 then Some(f.sumAvg as real / f.numAvg as real / 1000.0) else None, Ms(f.hi)))
  }

  // ── The query on the tables ─────────────────────────────────────────────────

  function RowInWindow(m: int, from: int, to: int): RunRow -> bool {
    (r: RunRow) => r.monitor == m && from <= r.at <= to
  }

  /** The hop rows joined to these runs. */
  function Joined(hops: seq<HopRow>, runs: seq<RunRow>): seq<HopRow> {
    if runs == [] then [] else Joined(hops, runs[..|runs| - 1]) + Filter(hops, OfRun(runs[|runs| - 1].id))
  }

  function RowFigures(rows: seq<HopRow>, no: nat): Figures {
    if rows == [] then NO_FIGURES else
      var rest, last := RowFigures(rows[..|rows| - 1], no), rows[|rows| - 1];
      if last.no == no then AddHop(rest, last.addrId.Some?, DeIntern(last, map[])) else rest
  }

  /** MAX(id). */
  function MaxId(runs: seq<RunRow>): (id: nat)
    requires runs != []
    ensures exists r :: r in runs && r.id == id
    ensures forall r :: r in runs ==> r.id <= id
  {
    var init, last := runs[..|runs| - 1], runs[|runs| - 1];
    assert runs == init + [last];
    if init == [] || MaxId(init) < last.id then last.id else MaxId(init)
  }

  /** The address that a run's rows, joined to the addresses, give a hop number;
      a later row would overwrite an earlier one. */
  function AddrIn(rows: seq<HopRow>, addrs: map<nat, Addr>, no: nat): Option<Addr> {
    if rows == [] then None else
      var last := rows[|rows| - 1];
      if last.no == no && last.addrId.Some? && last.addrId.value in addrs then Some(addrs[last.addrId.value])
      else AddrIn(rows[..|rows| - 1], addrs, no)
  }

  /** The line of one hop number.  Each of three statements reads a state of its own:
      figures of the runs in the window, the greatest run id, that run's addresses. */
  function GetHopAcross(first: Tables, second: Tables, third: Tables, m: int, from: int, to: int,
                        no: nat): Option<HopAgg>
  {
    var rows := Joined(first.hops, Filter(first.runs, RowInWindow(m, from, to)));
    var latest := Filter(second.runs, RowInWindow(m, from, to));
    ToAgg(RowFigures(rows, no),
          if latest == [] then None else AddrIn(Filter(third.hops, OfRun(MaxId(latest))), third.addrs, no))
  }

  /** The same when nothing changes in between. */
  function GetHop(t: Tables, m: int, from: int, to: int, no: nat): Option<HopAgg> {
    GetHopAcross(t, t, t, m, from, to, no)
  }

  /** One line of the detail table. */
  datatype Line = Line(no: nat, agg: HopAgg)

  /** A bound above every hop number among the rows. */
  function Limit(rows: seq<HopRow>): (n: nat)
    ensures forall h :: h in rows ==> h.no < n
  {
    if rows == [] then 0 else
      var rest, last := Limit(rows[..|rows| - 1]), rows[|rows| - 1];
      assert rows == rows[..|rows| - 1] + [last];
      if rest <= last.no then last.no + 1 else rest
  }

  lemma {:induction false} NoSamples(rows: seq<HopRow>, no: nat)
    requires forall h :: h in rows ==> h.no != no
    ensures RowFigures(rows, no).samples == 0
  {
    if rows != [] {
      NoSamples(rows[..|rows| - 1], no);
      assert rows == rows[..|rows| - 1] + [rows[|rows| - 1]];
    }
  }

  function Lookup(found: map<nat, Addr>, no: nat): Option<Addr> {
    if no in found then Some(found[no]) else None
  }

  /** The addresses of one run by hop number. */
  method AddrsByHop(rows: seq<HopRow>, addrs: map<nat, Addr>) returns (found: map<nat, Addr>)
    ensures forall no :: AddrIn(rows, addrs, no) == Lookup(found, no)
  {
    found := map[];
    for i := 0 to |rows|
      invariant forall no :: AddrIn(rows[..i], addrs, no) == Lookup(found, no)
    {
      var h := rows[i];
      assert rows[..i + 1][..i] == rows[..i];
      if h.addrId.Some? && h.addrId.value in addrs {
        found := found[h.no := addrs[h.addrId.value]];
      }
    }
    assert rows[..|rows|] == rows;
  }

  predicate Lists(out: seq<Line>, no: nat) {
    exists i :: 0 <= i < |out| && out[i].no == no
  }

  /** A line for each hop number of the rows, in the order of the numbers. */
  method ListHops(rows: seq<HopRow>, found: map<nat, Addr>) returns (out: seq<Line>)
    ensures forall i, j :: 0 <= i < j < |out| ==> out[i].no < out[j].no
    ensures forall i :: 0 <= i < |out| ==>
            ToAgg(RowFigures(rows, out[i].no), Lookup(found, out[i].no)) == Some(out[i].agg)
    ensures forall no :: ToAgg(RowFigures(rows, no), Lookup(found, no)).Some? ==> Lists(out, no)
  {
    out := [];
    for no := 0 to Limit(rows)
      invariant forall i, j :: 0 <= i < j < |out| ==> out[i].no < out[j].no
      invariant forall i :: 0 <= i < |out| ==>
                  out[i].no < no && ToAgg(RowFigures(rows, out[i].no), Lookup(found, out[i].no)) == Some(out[i].agg)
      invariant forall k :: 0 <= k < no && ToAgg(RowFigures(rows, k), Lookup(found, k)).Some? ==> Lists(out, k)
    {
      var agg := ToAgg(RowFigures(rows, no), if no in found then Some(found[no]) else None);
      if agg.Some? {
        ListsMore(out, Line(no, agg.value));
        out := out + [Line(no, agg.value)];
      }
    }
    forall no | no >= Limit(rows)
      ensures RowFigures(rows, no).samples == 0
    {
      NoSamples(rows, no);
    }
  }

  /** The query: exactly the hop numbers that have rows in the window, each with its
      figures, and the addresses gathered from one run.  Its three statements are not
      one transaction, so each reads the tables as it finds them. */
  method GetTracerouteHops(first: Tables, second: Tables, third: Tables, m: int, from: int, to: int)
    returns (out: seq<Line>)
    ensures forall i, j :: 0 <= i < j < |out| ==> out[i].no < out[j].no
    ensures forall i :: 0 <= i < |out| ==>
              GetHopAcross(first, second, third, m, from, to, out[i].no) == Some(out[i].agg)
    ensures forall no :: GetHopAcross(first, second, third, m, from, to, no).Some? ==> Lists(out, no)
  {
    var runs, latest := Filter(first.runs, RowInWindow(m, from, to)), Filter(second.runs, RowInWindow(m, from, to));
    var found := AddrsByHop(if latest == [] then [] else Filter(third.hops, OfRun(MaxId(latest))), third.addrs);
    out := ListHops(Joined(first.hops, runs), found);
    forall no
      ensures GetHopAcross(first, second, third, m, from, to, no) ==
              ToAgg(RowFigures(Joined(first.hops, runs), no), Lookup(found, no))
    {
    }
  }

  lemma ListsMore(out: seq<Line>, line: Line)
    ensures forall no :: Lists(out + [line], no) <==> Lists(out, no) || no == line.no
  {
    var more := out + [line];
    assert more[|out|] == line;
    forall no | Lists(out, no)
      ensures Lists(more, no)
    {
      var i :| 0 <= i < |out| && out[i].no == no;
      assert more[i].no == no;
    }
  }

  // ── The query on the plain list ─────────────────────────────────────────────

  function InWindow(m: int, from: int, to: int): Run -> bool {
    (r: Run) => r.monitor == m && from <= r.at <= to
  }

  function AllHops(runs: seq<Run>): seq<HopInput> {
    if runs == [] then [] else AllHops(runs[..|runs| - 1]) + runs[|runs| - 1].hops
  }

  function PlainAddr(hops: seq<HopInput>, no: nat): Option<Addr> {
    if hops == [] then None else
      var last := hops[|hops| - 1];
      if last.no == no && last.addr.Some? then last.addr else PlainAddr(hops[..|hops| - 1], no)
  }

  /** The answer to the query over the runs of a window: figures over all their
      hops, and the address from the run stored last. */
  function PlainHop(runs: seq<Run>, no: nat): Option<HopAgg> {
    ToAgg(PlainFigures(AllHops(runs), no), if runs == [] then None else PlainAddr(runs[|runs| - 1].hops, no))
  }

  // ── The two agree ───────────────────────────────────────────────────────────

  ghost predicate Resolves(rows: seq<HopRow>, addrs: map<nat, Addr>) {
    forall h :: h in rows && h.addrId.Some? ==> h.addrId.value in addrs
  }

  lemma {:induction false} FiguresDeIntern(rows: seq<HopRow>, addrs: map<nat, Addr>, no: nat)
    requires Resolves(rows, addrs)
    ensures RowFigures(rows, no) == PlainFigures(DeInternAll(rows, addrs), no)
  {
    if rows != [] {
      var init, last := rows[..|rows| - 1], rows[|rows| - 1];
      FiguresDeIntern(init, addrs, no);
      assert DeInternAll(rows, addrs)[..|init|] == DeInternAll(init, addrs);
      assert last in rows;
    }
  }

  lemma {:induction false} AddrDeIntern(rows: seq<HopRow>, addrs: map<nat, Addr>, no: nat)
    ensures AddrIn(rows, addrs, no) == PlainAddr(DeInternAll(rows, addrs), no)
  {
    if rows != [] {
      var init, last := rows[..|rows| - 1], rows[|rows| - 1];
      AddrDeIntern(init, addrs, no);
      assert DeInternAll(rows, addrs)[..|init|] == DeInternAll(init, addrs);
    }
  }

  function RunsOf(rows: seq<RunRow>, t: Tables): (out: seq<Run>)
    ensures |out| == |rows| && forall i :: 0 <= i < |rows| ==> out[i] == RunOf(rows[i], t)
  {
    seq(|rows|, i requires 0 <= i < |rows| => RunOf(rows[i], t))
  }

  lemma {:induction false} JoinedDeInterns(rows: seq<RunRow>, t: Tables)
    ensures DeInternAll(Joined(t.hops, rows), t.addrs) == AllHops(RunsOf(rows, t))
    ensures forall h :: h in Joined(t.hops, rows) ==> h in t.hops
  {
    if rows != [] {
      var init, last := rows[..|rows| - 1], rows[|rows| - 1];
      JoinedDeInterns(init, t);
      assert RunsOf(rows, t)[..|init|] == RunsOf(init, t);
    }
  }

  lemma {:induction false} WindowOfList(rows: seq<RunRow>, t: Tables, m: int, from: int, to: int)
    ensures RunsOf(Filter(rows, RowInWindow(m, from, to)), t) == Filter(RunsOf(rows, t), InWindow(m, from, to))
  {
    if rows != [] {
      var init, last := rows[..|rows| - 1], rows[|rows| - 1];
      WindowOfList(init, t, m, from, to);
      RunsOfAppend(init, last, t);
      assert RunsOf(rows, t) == RunsOf(init, t) + [RunOf(last, t)] by { assert rows == init + [last]; }
      FilterAppend(RunsOf(init, t), RunOf(last, t), InWindow(m, from, to));
      if RowInWindow(m, from, to)(last) {
        RunsOfAppend(Filter(init, RowInWindow(m, from, to)), last, t);
      }
    }
  }

  lemma RunsOfAppend(rows: seq<RunRow>, r: RunRow, t: Tables)
    ensures RunsOf(rows + [r], t) == RunsOf(rows, t) + [RunOf(r, t)]
  {
  }

  lemma FiguresRefine(t: Tables, rows: seq<RunRow>, no: nat)
    requires Resolves(t.hops, t.addrs)
    ensures RowFigures(Joined(t.hops, rows), no) == PlainFigures(AllHops(RunsOf(rows, t)), no)
  {
    JoinedDeInterns(rows, t);
    FiguresDeIntern(Joined(t.hops, rows), t.addrs, no);
  }

  lemma LastHasMaxId(rows: seq<RunRow>)
    requires Ascending(rows) && rows != []
    ensures MaxId(rows) == rows[|rows| - 1].id
  {
    var id := MaxId(rows);
    assert exists r :: r in rows && r.id == id;
    var i :| 0 <= i < |rows| && rows[i].id == id;
    IdOrder(rows, i, |rows| - 1);
  }

  lemma AddressRefines(t: Tables, rows: seq<RunRow>, no: nat)
    requires Ascending(rows) && rows != []
    ensures AddrIn(Filter(t.hops, OfRun(MaxId(rows))), t.addrs, no) == PlainAddr(RunOf(rows[|rows| - 1], t).hops, no)
  {
    var last := rows[|rows| - 1];
    LastHasMaxId(rows);
    AddrDeIntern(Filter(t.hops, OfRun(last.id)), t.addrs, no);
  }

  lemma AnswerRefines(t: Tables, rows: seq<RunRow>, m: int, from: int, to: int, no: nat)
    requires rows == Filter(t.runs, RowInWindow(m, from, to)) && Ascending(rows) && Resolves(t.hops, t.addrs)
    ensures GetHop(t, m, from, to, no) == PlainHop(RunsOf(rows, t), no)
  {
    FiguresRefine(t, rows, no);
    if rows != [] {
      AddressRefines(t, rows, no);
    }
  }

  /** The query over the interned tables answers what it would over the plain
      list: interning is invisible, and the run with the largest id is the one stored last. */
  lemma QueryRefines(t: Tables, m: int, from: int, to: int, no: nat)
    requires Valid(t)
    ensures GetHop(t, m, from, to, no) == PlainHop(Filter(Abs(t), InWindow(m, from, to)), no)
  {
    FilterAscending(t.runs, RowInWindow(m, from, to));
    AnswerRefines(t, Filter(t.runs, RowInWindow(m, from, to)), m, from, to, no);
    WindowOfList(t.runs, t, m, from, to);
    assert Abs(t) == RunsOf(t.runs, t);
  }

  /** When nothing about the runs of the window changes between the statements, the
      answer is that of one state: other monitors' runs, runs outside the window and
      the renumbering of addresses do not matter. */
  lemma AcrossIsOneState(first: Tables, second: Tables, third: Tables, m: int, from: int, to: int, no: nat)
    requires Valid(first) && Valid(second) && Valid(third)
    requires Filter(Abs(first), InWindow(m, from, to)) == Filter(Abs(second), InWindow(m, from, to))
    requires Filter(Abs(second), InWindow(m, from, to)) == Filter(Abs(third), InWindow(m, from, to))
    ensures GetHopAcross(first, second, third, m, from, to, no) == GetHop(first, m, from, to, no)
  {
    var latest, rows := Filter(second.runs, RowInWindow(m, from, to)), Filter(third.runs, RowInWindow(m, from, to));
    SameWindowRows(second, third, m, from, to);
    SameWindowRows(first, third, m, from, to);
    if rows != [] {
      assert MaxId(latest) == MaxId(rows) by {
        WindowAscending(second, m, from, to);
        WindowAscending(third, m, from, to);
        LastHasMaxId(latest);
        LastHasMaxId(rows);
      }
    }
    AddressOfWindow(first, m, from, to, no);
    AddressOfWindow(third, m, from, to, no);
  }

  lemma WindowAscending(t: Tables, m: int, from: int, to: int)
    requires Valid(t)
    ensures Ascending(Filter(t.runs, RowInWindow(m, from, to)))
  {
    FilterAscending(t.runs, RowInWindow(m, from, to));
  }

  lemma SameWindowRows(t: Tables, t': Tables, m: int, from: int, to: int)
    requires Filter(Abs(t), InWindow(m, from, to)) == Filter(Abs(t'), InWindow(m, from, to))
    ensures var rows, rows' := Filter(t.runs, RowInWindow(m, from, to)), Filter(t'.runs, RowInWindow(m, from, to));
            |rows| == |rows'| && forall i :: 0 <= i < |rows| ==> rows[i].id == rows'[i].id
  {
    var rows, rows' := Filter(t.runs, RowInWindow(m, from, to)), Filter(t'.runs, RowInWindow(m, from, to));
    WindowOfList(t.runs, t, m, from, to);
    WindowOfList(t'.runs, t', m, from, to);
    assert Abs(t) == RunsOf(t.runs, t) && Abs(t') == RunsOf(t'.runs, t');
    assert RunsOf(rows, t) == RunsOf(rows', t');
    forall i | 0 <= i < |rows|
      ensures rows[i].id == rows'[i].id
    {
      assert RunsOf(rows, t)[i] == RunsOf(rows', t')[i];
    }
  }

  /** The address that a window's last run gives a hop number, through its tables and
      through the plain list. */
  lemma AddressOfWindow(t: Tables, m: int, from: int, to: int, no: nat)
    requires Valid(t)
    ensures var rows, runs := Filter(t.runs, RowInWindow(m, from, to)), Filter(Abs(t), InWindow(m, from, to));
            && (rows == [] <==> runs == [])
            && (rows != [] ==>
                  AddrIn(Filter(t.hops, OfRun(MaxId(rows))), t.addrs, no) == PlainAddr(runs[|runs| - 1].hops, no))
  {
    var rows := Filter(t.runs, RowInWindow(m, from, to));
    WindowAscending(t, m, from, to);
    WindowOfList(t.runs, t, m, from, to);
    assert Abs(t) == RunsOf(t.runs, t);
    if rows != [] {
      AddressRefines(t, rows, no);
    }
  }

  /** Pruning one monitor's runs, or deleting another monitor's, changes no answer
      over a window that opens at or after the cutoff, the address included. */
  lemma TraceRetentionInvisible(t: Tables, victim: int, cutoff: int, m: int, from: int, to: int, no: nat)
    requires Valid(t)
    ensures victim != m || cutoff <= from ==>
              GetHop(DeleteRuns(t, Outdated(t, victim, cutoff)), m, from, to, no) == GetHop(t, m, from, to, no)
    ensures victim != m ==>
              GetHop(DeleteRuns(t, Owned(t, victim)), m, from, to, no) == GetHop(t, m, from, to, no)
  {
    var window := InWindow(m, from, to);
    QueryRefines(t, m, from, to, no);
    if victim != m || cutoff <= from {
      var doomed := Outdated(t, victim, cutoff);
      DeleteRunsRefines(t, doomed);
      DeleteRunsValid(t, doomed);
      OutdatedInList(t, victim, cutoff);
      FilterTwice(Abs(t), NotOlder(victim, cutoff), window);
      QueryRefines(DeleteRuns(t, doomed), m, from, to, no);
    }
    if victim != m {
      var doomed := Owned(t, victim);
      DeleteRunsRefines(t, doomed);
      DeleteRunsValid(t, doomed);
      OwnedInList(t, victim);
      FilterTwice(Abs(t), NotOf(victim), window);
      QueryRefines(DeleteRuns(t, doomed), m, from, to, no);
    }
  }

  // ── min <= avg <= max survives aggregation ──────────────────────────────────

  ghost predicate FiguresOrdered(f: Figures) {
    && (f.numAvg == 0 ==> f.sumAvg == 0)
    && (f.lo.Some? <==> f.numAvg > 0) && (f.hi.Some? <==> f.numAvg > 0)
    && (f.numAvg > 0 ==> f.lo.value * f.numAvg <= f.sumAvg <= f.hi.value * f.numAvg)
  }

  lemma AddHopOrdered(f: Figures, responded: bool, h: HopInput)
    requires FiguresOrdered(f) && Ordered(h)
    ensures FiguresOrdered(AddHop(f, responded, h))
  {
    if h.avgUs.Some? && f.numAvg > 0 {
      var g := AddHop(f, responded, h);
      StillBelow(g.lo.value, f.lo.value, f.numAvg, f.sumAvg, h.avgUs.value);
      StillAbove(g.hi.value, f.hi.value, f.numAvg, f.sumAvg, h.avgUs.value);
      assert g.numAvg == f.numAvg + 1 && g.sumAvg == f.sumAvg + h.avgUs.value;
    } else if h.avgUs.Some? {
      var g := AddHop(f, responded, h);
      assert g.numAvg == 1;
      assert f.sumAvg == 0;
    }
  }

  lemma StillBelow(lo: nat, oldLo: nat, number: nat, sum: nat, avg: nat)
    requires lo <= oldLo && lo <= avg && oldLo * number <= sum
    ensures lo * (number + 1) <= sum + avg
  {
    MulMono(lo, oldLo, number);
    Distribute(number, 1, lo);
  }

  lemma StillAbove(hi: nat, oldHi: nat, number: nat, sum: nat, avg: nat)
    requires oldHi <= hi && avg <= hi && sum <= oldHi * number
    ensures sum + avg <= hi * (number + 1)
  {
    MulMono(oldHi, hi, number);
    Distribute(number, 1, hi);
  }

  lemma {:induction false} PlainFiguresOrdered(hops: seq<HopInput>, no: nat)
    requires forall h :: h in hops ==> Ordered(h)
    ensures FiguresOrdered(PlainFigures(hops, no))
  {
    if hops != [] {
      var init, last := hops[..|hops| - 1], hops[|hops| - 1];
      assert forall h :: h in init ==> h in hops;
      PlainFiguresOrdered(init, no);
      assert last in hops;
      AddHopOrdered(PlainFigures(init, no), last.addr.Some?, last);
    }
  }

  lemma {:induction false} HopsComeFromRuns(runs: seq<Run>)
    ensures forall h :: h in AllHops(runs) ==> exists r :: r in runs && h in r.hops
  {
    if runs != [] {
      var init, last := runs[..|runs| - 1], runs[|runs| - 1];
      HopsComeFromRuns(init);
      forall h | h in AllHops(runs)
        ensures exists r :: r in runs && h in r.hops
      {
        if h in AllHops(init) {
          var r :| r in init && h in r.hops;
          assert r in runs;
        } else {
          assert last in runs;
        }
      }
    }
  }

  /** Over any set of runs whose hops are in order, so is every detail row. */
  lemma AggregatesStayOrdered(runs: seq<Run>, no: nat)
    requires forall r, h :: r in runs && h in r.hops ==> Ordered(h)
    ensures var a := PlainHop(runs, no);
            a.Some? ==>
              && (a.value.minMs.Some? <==> a.value.avgMs.Some?) && (a.value.avgMs.Some? <==> a.value.maxMs.Some?)
              && (a.value.avgMs.Some? ==> a.value.minMs.value <= a.value.avgMs.value <= a.value.maxMs.value)
  {
    HopsComeFromRuns(runs);
    PlainFiguresOrdered(AllHops(runs), no);
    var f := PlainFigures(AllHops(runs), no);
    if f.numAvg > 0 {
      MeanBetween(f.sumAvg, f.numAvg, f.lo.value, f.hi.value);
    }
  }

  lemma MeanBetween(sum: nat, number: nat, lo: nat, hi: nat)
    requires number > 0 && lo * number <= sum <= hi * number
    ensures lo as real / 1000.0 <= sum as real / number as real / 1000.0 <= hi as real / 1000.0
  {
    IntProduct(lo, number);
    IntProduct(hi, number);
    QuotientBetween(sum as real, number as real, lo as real, hi as real);
    Thousandths(lo as real, sum as real / number as real);
    Thousandths(sum as real / number as real, hi as real);
  }

  lemma Thousandths(x: real, y: real)
    requires x <= y
    ensures x / 1000.0 <= y / 1000.0
  {
  }

  lemma QuotientBetween(x: real, y: real, lo: real, hi: real)
    requires y > 0.0 && lo * y <= x <= hi * y
    ensures lo <= x / y <= hi
  {
    var mean := x / y;
    RealQuotient(x, y);
    if mean < lo {
      RealMulStrict(mean, lo, y);
    }
    if hi < mean {
      RealMulStrict(hi, mean, y);
    }
  }

  lemma RealQuotient(x: real, y: real)
    requires y > 0.0
    ensures x / y * y == x
  {
  }

  lemma {:induction false} IntProduct(a: nat, b: nat)
    ensures (a * b) as real == a as real * b as real
  {
    if b > 0 {
      IntProduct(a, b - 1);
      Distribute(b - 1, 1, a);
    }
  }

  lemma RealMulStrict(x: real, y: real, z: real)
    requires x < y && z > 0.0
    ensures x * z < y * z
  {
  }
}
