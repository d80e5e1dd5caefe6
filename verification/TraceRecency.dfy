/** Which run the traceroute detail query takes its addresses from, and when that
is the most recent run, or the most recent answer. */
module TraceRecency {
  import opened Samples
  import opened TraceStore
  import opened TraceQueries

  /** The runs of a window, in the order in which they were stored. */
  function WindowRuns(t: Tables, m: int, from: int, to: int): seq<Run> {
    Filter(Abs(t), InWindow(m, from, to))
  }

  /** The run with the greatest id in the window: the query shows its addresses. */
  ghost predicate Shown(t: Tables, m: int, from: int, to: int, r: Run) {
    var rows := Filter(t.runs, RowInWindow(m, from, to));
    rows != [] && r in WindowRuns(t, m, from, to) && r.id == MaxId(rows)
  }

  ghost predicate MostRecent(runs: seq<Run>, r: Run) {
    r in runs && forall q :: q in runs ==> q.at <= r.at
  }

  predicate Answered(r: Run, no: nat) {
    PlainAddr(r.hops, no).Some?
  }

  // ── The run shown ───────────────────────────────────────────────────────────

  lemma RowsOfWindow(t: Tables, m: int, from: int, to: int)
    ensures RunsOf(Filter(t.runs, RowInWindow(m, from, to)), t) == WindowRuns(t, m, from, to)
  {
    assert Abs(t) == RunsOf(t.runs, t);
    WindowOfList(t.runs, t, m, from, to);
  }

  /** The run shown is the one stored last. */
  lemma ShownIsLastStored(t: Tables, m: int, from: int, to: int, r: Run)
    requires Ascending(t.runs)
    ensures var runs := WindowRuns(t, m, from, to);
            Shown(t, m, from, to, r) <==> runs != [] && r == runs[|runs| - 1]
  {
    var rows, runs := Filter(t.runs, RowInWindow(m, from, to)), WindowRuns(t, m, from, to);
    RowsOfWindow(t, m, from, to);
    FilterAscending(t.runs, RowInWindow(m, from, to));
    if rows != [] {
      LastHasMaxId(rows);
      if r in runs && r.id == MaxId(rows) {
        var i :| 0 <= i < |runs| && runs[i] == r;
        OneRowPerId(rows, rows[i], rows[|rows| - 1]);
      }
    }
  }

  /** The query shows the addresses of that run, and they come from a most recent
      run of the window exactly when no run stored earlier carries a later stamp. */
  lemma ShownIsMostRecent(t: Tables, m: int, from: int, to: int, r: Run)
    requires Valid(t) && Shown(t, m, from, to, r)
    ensures forall no :: var a := GetHop(t, m, from, to, no); a.Some? ==> a.value.addr == PlainAddr(r.hops, no)
    ensures MostRecent(WindowRuns(t, m, from, to), r) <==>
            forall q :: q in WindowRuns(t, m, from, to) && q.id < r.id ==> q.at <= r.at
  {
    var runs := WindowRuns(t, m, from, to);
    ShownIsLastStored(t, m, from, to, r);
    forall no
      ensures GetHop(t, m, from, to, no) == PlainHop(runs, no)
    {
      QueryRefines(t, m, from, to, no);
    }
    OthersStoredEarlier(t, m, from, to);
  }

  lemma OthersStoredEarlier(t: Tables, m: int, from: int, to: int)
    requires Ascending(t.runs)
    ensures var runs := WindowRuns(t, m, from, to);
            forall q :: q in runs && q != runs[|runs| - 1] ==> q.id < runs[|runs| - 1].id
  {
    var rows, runs := Filter(t.runs, RowInWindow(m, from, to)), WindowRuns(t, m, from, to);
    RowsOfWindow(t, m, from, to);
    FilterAscending(t.runs, RowInWindow(m, from, to));
    forall q | q in runs && q != runs[|runs| - 1]
      ensures q.id < runs[|runs| - 1].id
    {
      var i :| 0 <= i < |runs| && runs[i] == q;
      assert rows[i].id < rows[|rows| - 1].id;
    }
  }

  // ── Every window at once ────────────────────────────────────────────────────

  /** Whenever a monitor's run was stored after one with a later stamp, a run
      stored later still repeats that stamp. */
  ghost predicate LateRunsCovered(list: seq<Run>, m: int) {
    forall i, j :: 0 <= i < j < |list| ==> Covered(list, m, i, j)
  }

  ghost predicate Covered(list: seq<Run>, m: int, i: nat, j: nat)
    requires i < j < |list|
  {
    list[i].monitor == m && list[j].monitor == m && list[i].at > list[j].at ==> Repeats(list, m, j, list[i].at)
  }

  ghost predicate Repeats(list: seq<Run>, m: int, j: nat, at: int) {
    exists k :: j < k < |list| && list[k].monitor == m && list[k].at == at
  }

  /** The last element that a filter keeps. */
  lemma {:induction false} LastKept<T(!new)>(list: seq<T>, keep: T -> bool) returns (z: nat)
    requires Filter(list, keep) != []
    ensures z < |list| && keep(list[z]) && forall k :: z < k < |list| ==> !keep(list[k])
    ensures var kept := Filter(list, keep); kept[|kept| - 1] == list[z]
  {
    var last := |list| - 1;
    if keep(list[last]) {
      z := last;
    } else {
      z := LastKept(list[..last], keep);
      assert Filter(list, keep) == Filter(list[..last], keep);
    }
  }

  ghost predicate AlwaysMostRecent(t: Tables, m: int) {
    forall from, to, r :: Shown(t, m, from, to, r) ==> MostRecent(WindowRuns(t, m, from, to), r)
  }

  ghost predicate LastMostRecent(list: seq<Run>, m: int, from: int, to: int) {
    var runs := Filter(list, InWindow(m, from, to));
    runs != [] ==> MostRecent(runs, runs[|runs| - 1])
  }

  /** Over every window the query shows a most recent run if and only if each run
      of the monitor that was stored too late is covered. */
  lemma EveryWindowMostRecent(t: Tables, m: int)
    requires Valid(t)
    ensures AlwaysMostRecent(t, m) <==> LateRunsCovered(Abs(t), m)
  {
    ShownEverywhere(t, m);
    LastEverywhere(Abs(t), m);
  }

  lemma ShownInWindow(t: Tables, m: int, from: int, to: int)
    requires Ascending(t.runs)
    ensures LastMostRecent(Abs(t), m, from, to) <==>
            forall r :: Shown(t, m, from, to, r) ==> MostRecent(WindowRuns(t, m, from, to), r)
  {
    var runs := WindowRuns(t, m, from, to);
    if LastMostRecent(Abs(t), m, from, to) {
      forall r | Shown(t, m, from, to, r)
        ensures MostRecent(runs, r)
      {
        ShownIsLastStored(t, m, from, to, r);
      }
    } else {
      ShownIsLastStored(t, m, from, to, runs[|runs| - 1]);
    }
  }

  lemma ShownEverywhere(t: Tables, m: int)
    requires Ascending(t.runs)
    ensures AlwaysMostRecent(t, m) <==> forall from, to :: LastMostRecent(Abs(t), m, from, to)
  {
    forall from, to
      ensures LastMostRecent(Abs(t), m, from, to) <==>
              forall r :: Shown(t, m, from, to, r) ==> MostRecent(WindowRuns(t, m, from, to), r)
    {
      ShownInWindow(t, m, from, to);
    }
  }

  lemma LastEverywhere(list: seq<Run>, m: int)
    ensures LateRunsCovered(list, m) <==> forall from, to :: LastMostRecent(list, m, from, to)
  {
    if LateRunsCovered(list, m) {
      forall from, to
        ensures LastMostRecent(list, m, from, to)
      {
        if Filter(list, InWindow(m, from, to)) != [] {
          CoveredList(list, m, from, to);
        }
      }
    } else {
      var i, j :| 0 <= i < j < |list| && !Covered(list, m, i, j);
      UncoveredList(list, m, i, j);
      assert !LastMostRecent(list, m, list[j].at, list[i].at);
    }
  }

  lemma CoveredList(list: seq<Run>, m: int, from: int, to: int)
    requires LateRunsCovered(list, m) && Filter(list, InWindow(m, from, to)) != []
    ensures var runs := Filter(list, InWindow(m, from, to)); MostRecent(runs, runs[|runs| - 1])
  {
    var keep := InWindow(m, from, to);
    var z := LastKept(list, keep);
    forall i | 0 <= i < |list| && keep(list[i])
      ensures list[i].at <= list[z].at
    {
      NotLater(list, m, i, z);
    }
  }

  lemma NotLater(list: seq<Run>, m: int, i: nat, z: nat)
    requires LateRunsCovered(list, m) && i <= z < |list| && list[i].monitor == m && list[z].monitor == m
    requires forall k :: z < k < |list| && list[k].monitor == m ==> list[k].at != list[i].at
    ensures list[i].at <= list[z].at
  {
    assert i < z ==> Covered(list, m, i, z);
  }

  /** The window between the two stamps of a run that is not covered. */
  lemma UncoveredList(list: seq<Run>, m: int, i: nat, j: nat)
    requires i < j < |list| && list[i].monitor == m && list[j].monitor == m
    requires list[i].at > list[j].at && !Repeats(list, m, j, list[i].at)
    ensures var runs := Filter(list, InWindow(m, list[j].at, list[i].at));
            runs != [] && !MostRecent(runs, runs[|runs| - 1])
  {
    var keep := InWindow(m, list[j].at, list[i].at);
    assert keep(list[i]) && keep(list[j]);
    assert list[i] in Filter(list, keep);
    var z := LastKept(list, keep);
    assert z >= j && list[z].monitor == m;
    assert z > j ==> list[z].at != list[i].at;
  }

  // ── The most recent answer at a hop ─────────────────────────────────────────

  /** The address that the last run to answer at a hop number saw there. */
  function LastAnswer(runs: seq<Run>, no: nat): Option<Addr> {
    if runs == [] then None
    else if Answered(runs[|runs| - 1], no) then PlainAddr(runs[|runs| - 1].hops, no)
    else LastAnswer(runs[..|runs| - 1], no)
  }

  lemma {:induction false} LastAnswerFound(runs: seq<Run>, no: nat)
    ensures LastAnswer(runs, no).Some? <==> exists q :: q in runs && Answered(q, no)
  {
    if runs != [] {
      var init, last := runs[..|runs| - 1], runs[|runs| - 1];
      LastAnswerFound(init, no);
      assert runs == init + [last];
    }
  }

  lemma {:induction false} RespondedAnswers(hops: seq<HopInput>, no: nat)
    ensures PlainFigures(hops, no).responded > 0 <==> PlainAddr(hops, no).Some?
  {
    if hops != [] {
      RespondedAnswers(hops[..|hops| - 1], no);
    }
  }

  lemma {:induction false} RespondedConcat(a: seq<HopInput>, b: seq<HopInput>, no: nat)
    ensures PlainFigures(a + b, no).responded == PlainFigures(a, no).responded + PlainFigures(b, no).responded
  {
    if b == [] {
      assert a + b == a;
    } else {
      RespondedConcat(a, b[..|b| - 1], no);
      assert (a + b)[..|a + b| - 1] == a + b[..|b| - 1];
    }
  }

  lemma {:induction false} RespondedRuns(runs: seq<Run>, no: nat)
    ensures PlainFigures(AllHops(runs), no).responded > 0 <==> LastAnswer(runs, no).Some?
  {
    if runs != [] {
      var init, last := runs[..|runs| - 1], runs[|runs| - 1];
      RespondedRuns(init, no);
      RespondedConcat(AllHops(init), last.hops, no);
      RespondedAnswers(last.hops, no);
    }
  }

  /** A line is marked reachable when any run of the window answered at its hop,
      but shows what the last answer saw exactly when the run stored last answered
      there, or no run did; otherwise it is reachable without an address. */
  lemma ShownIsLastAnswer(t: Tables, m: int, from: int, to: int, no: nat)
    requires Valid(t)
    ensures GetHop(t, m, from, to, no).Some? ==>
              var runs, line := WindowRuns(t, m, from, to), GetHop(t, m, from, to, no).value;
              && runs != []
              && (line.reachable <==> exists q :: q in runs && Answered(q, no))
              && (line.addr == LastAnswer(runs, no) <==>
                  Answered(runs[|runs| - 1], no) || forall q :: q in runs ==> !Answered(q, no))
              && ((line.addr.None? <==> !line.reachable) <==> line.addr == LastAnswer(runs, no))
  {
    var runs := WindowRuns(t, m, from, to);
    QueryRefines(t, m, from, to, no);
    RespondedRuns(runs, no);
    LastAnswerFound(runs, no);
  }

  // ── Inputs that break the two promises ──────────────────────────────────────

  /** What one query at hop 1 stores: an address with its RTT, or a loss. */
  function OneHop(run: nat, addrId: Option<nat>): HopRow {
    HopRow(run, 1, addrId, RttOf(addrId), RttOf(addrId), RttOf(addrId), if addrId.Some? then 0 else 1)
  }

  function RttOf<T>(answer: Option<T>): Option<nat> {
    if answer.Some? then Some(1000) else None
  }

  function FirstHop(addr: Option<Addr>): HopInput {
    HopInput(1, addr, RttOf(addr), RttOf(addr), RttOf(addr), if addr.Some? then 0 else 1)
  }

  function TwoRuns(at1: int, at2: int, addr2: Option<nat>, addrs: map<nat, Addr>): Tables {
    Tables([RunRow(1, 0, at1, true, 1), RunRow(2, 0, at2, addr2.Some?, 1)], [OneHop(1, Some(1)), OneHop(2, addr2)],
           addrs, 3, 3)
  }

  lemma FilterPair<T(!new)>(a: T, b: T, keep: T -> bool)
    ensures Filter([a, b], keep) == (if keep(a) then [a] else []) + if keep(b) then [b] else []
  {
    assert [a, b][..1] == [a] && [a][..0] == [];
    assert Filter([a], keep) == if keep(a) then [a] else [];
  }

  lemma PlainRun(t: Tables, r: RunRow, h: HopRow, hop: HopInput)
    requires Filter(t.hops, OfRun(r.id)) == [h] && DeIntern(h, t.addrs) == hop
    ensures RunOf(r, t) == Run(r.id, r.monitor, r.at, r.reached, [hop])
  {
    assert DeInternAll([h], t.addrs) == [hop];
  }

  function AddrOf(addrId: Option<nat>, addrs: map<nat, Addr>): Option<Addr> {
    if addrId.Some? && addrId.value in addrs then Some(addrs[addrId.value]) else None
  }

  lemma TwoRunsPlain(at1: int, at2: int, addr2: Option<nat>, addrs: map<nat, Addr>)
    requires 1 in addrs && (addr2.Some? ==> addr2.value in addrs)
    ensures var t := TwoRuns(at1, at2, addr2, addrs);
            && Abs(t) == [Run(1, 0, at1, true, [FirstHop(AddrOf(Some(1), addrs))]),
                          Run(2, 0, at2, addr2.Some?, [FirstHop(AddrOf(addr2, addrs))])]
            && HopCountsRight(t.runs, t.hops)
  {
    var t := TwoRuns(at1, at2, addr2, addrs);
    FilterPair(t.hops[0], t.hops[1], OfRun(1));
    FilterPair(t.hops[0], t.hops[1], OfRun(2));
    assert t.hops == [t.hops[0], t.hops[1]];
    PlainRun(t, t.runs[0], t.hops[0], FirstHop(AddrOf(Some(1), addrs)));
    PlainRun(t, t.runs[1], t.hops[1], FirstHop(AddrOf(addr2, addrs)));
  }

  lemma TwoRunsValid(at1: int, at2: int, addr2: Option<nat>, addrs: map<nat, Addr>)
    requires Unique(addrs) && addrs.Keys == {1} + (if addr2.Some? then {2} else {}) && addr2 in {None, Some(2)}
    ensures Valid(TwoRuns(at1, at2, addr2, addrs))
  {
    var t := TwoRuns(at1, at2, addr2, addrs);
    assert 1 in addrs.Keys && (addr2.Some? ==> 2 in addrs.Keys);
    TwoRunsPlain(at1, at2, addr2, addrs);
    assert t.runs[0] in t.runs && t.runs[1] in t.runs;
    assert t.hops[0] in t.hops && t.hops[1] in t.hops;
    forall a | a in addrs
      ensures Referenced(t.hops, a)
    {
      assert a == 1 || a == 2;
    }
  }

  /** The query over both runs: one line, with the address of the second. */
  lemma TwoRunsQuery(at1: int, at2: int, addr2: Option<nat>, addrs: map<nat, Addr>)
    requires Unique(addrs) && addrs.Keys == {1} + (if addr2.Some? then {2} else {}) && addr2 in {None, Some(2)}
    requires 1 <= at1 <= 2 && 1 <= at2 <= 2
    ensures var t := TwoRuns(at1, at2, addr2, addrs);
            && WindowRuns(t, 0, 1, 2) == Abs(t)
            && GetHop(t, 0, 1, 2, 1) == PlainHop(Abs(t), 1)
  {
    var t := TwoRuns(at1, at2, addr2, addrs);
    assert 1 in addrs.Keys && (addr2.Some? ==> 2 in addrs.Keys);
    assert WindowRuns(t, 0, 1, 2) == Abs(t) by {
      TwoRunsPlain(at1, at2, addr2, addrs);
      FilterAll(Abs(t), InWindow(0, 1, 2));
    }
    assert Valid(t) by {
      TwoRunsValid(at1, at2, addr2, addrs);
    }
    QueryRefines(t, 0, 1, 2, 1);
  }

  lemma TwoRunsLine(r: Run, q: Run, addr1: Option<Addr>, addr2: Option<Addr>)
    requires r.hops == [FirstHop(addr1)] && q.hops == [FirstHop(addr2)]
    ensures PlainAddr(r.hops, 1) == addr1 && PlainAddr(q.hops, 1) == addr2
    ensures var line := PlainHop([r, q], 1);
            line.Some? && line.value.addr == addr2 && (line.value.reachable <==> addr1.Some? || addr2.Some?)
  {
    var runs := [r, q];
    assert runs[..1] == [r] && [r][..0] == [];
    assert AllHops([r]) == r.hops;
    assert AllHops(runs) == [FirstHop(addr1), FirstHop(addr2)];
    assert [FirstHop(addr1), FirstHop(addr2)][..1] == [FirstHop(addr1)];
    assert [FirstHop(addr1)][..0] == [];
    assert PlainFigures([FirstHop(addr1)], 1).responded == if addr1.Some? then 1 else 0;
    assert PlainFigures(AllHops(runs), 1).responded ==
           PlainFigures([FirstHop(addr1)], 1).responded + if addr2.Some? then 1 else 0;
  }

  /** Two runs whose insertions swapped: the later stamp was stored first.  The
      query shows the address of the older run. */
  lemma SwappedRuns() returns (t: Tables)
    ensures var runs := WindowRuns(t, 0, 1, 2);
            && |runs| == 2 && MostRecent(runs, runs[0]) && PlainAddr(runs[0].hops, 1) == Some("new")
            && GetHop(t, 0, 1, 2, 1).Some? && GetHop(t, 0, 1, 2, 1).value.addr == Some("old")
    ensures Valid(t)
  {
    var addrs := map[1 := "new", 2 := "old"];
    t := TwoRuns(2, 1, Some(2), addrs);
    TwoRunsPlain(2, 1, Some(2), addrs);
    TwoRunsQuery(2, 1, Some(2), addrs);
    TwoRunsLine(Abs(t)[0], Abs(t)[1], Some("new"), Some("old"));
    TwoRunsValid(2, 1, Some(2), addrs);
  }

  /** The newer run got no answer at the hop: the line is reachable, and shows no
      address, although one was seen in the window. */
  lemma SilentNewest() returns (t: Tables)
    ensures var runs := WindowRuns(t, 0, 1, 2);
            && LastAnswer(runs, 1) == Some("seen")
            && GetHop(t, 0, 1, 2, 1).Some? && GetHop(t, 0, 1, 2, 1).value.reachable
            && GetHop(t, 0, 1, 2, 1).value.addr == None
    ensures Valid(t)
  {
    var addrs := map[1 := "seen"];
    t := TwoRuns(1, 2, None, addrs);
    TwoRunsPlain(1, 2, None, addrs);
    TwoRunsQuery(1, 2, None, addrs);
    TwoRunsLine(Abs(t)[0], Abs(t)[1], Some("seen"), None);
    LastAnswerOfTwo(Abs(t)[0], Abs(t)[1], 1);
    TwoRunsValid(1, 2, None, addrs);
  }

  lemma LastAnswerOfTwo(a: Run, b: Run, no: nat)
    requires Answered(a, no) && !Answered(b, no)
    ensures LastAnswer([a, b], no) == PlainAddr(a.hops, no)
  {
    assert [a, b][..1] == [a];
    assert LastAnswer([a], no) == PlainAddr(a.hops, no);
  }
}
