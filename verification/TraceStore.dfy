/** Traceroute storage: three tables with interned addresses, against a plain
list of runs. */
module TraceStore {
  import opened Samples
  import opened RowCounts

  type Addr = string

  /** One hop's statistics as the probe hands them over. */
  datatype HopInput = HopInput(no: nat, addr: Option<Addr>, minUs: Option<nat>, avgUs: Option<nat>,
                               maxUs: Option<nat>, loss: nat)

  /** The three RTT figures are there together, and in order. */
  ghost predicate Ordered(h: HopInput) {
    && (h.minUs.Some? <==> h.avgUs.Some?) && (h.avgUs.Some? <==> h.maxUs.Some?)
    && (h.avgUs.Some? ==> h.minUs.value <= h.avgUs.value <= h.maxUs.value)
  }

  datatype RunInput = RunInput(reached: bool, hops: seq<HopInput>)

  /** A row of `traceroute_runs`. */
  datatype RunRow = RunRow(id: nat, monitor: int, at: int, reached: bool, hopCount: nat)

  /** A row of `traceroute_hops`. */
  datatype HopRow = HopRow(run: nat, no: nat, addrId: Option<nat>, minUs: Option<nat>, avgUs: Option<nat>,
                           maxUs: Option<nat>, loss: nat)

  /** The three tables.  Both ids are AUTOINCREMENT: `nextRun` and `nextAddr`
      have never been used. */
  datatype Tables = Tables(runs: seq<RunRow>, hops: seq<HopRow>, addrs: map<nat, Addr>, nextRun: nat, nextAddr: nat)

  /** A stored run with its hops, as a plain list would hold it. */
  datatype Run = Run(id: nat, monitor: int, at: int, reached: bool, hops: seq<HopInput>)

  // ── The abstraction ─────────────────────────────────────────────────────────

  function OfRun(id: nat): HopRow -> bool { (h: HopRow) => h.run == id }

  function DeIntern(h: HopRow, addrs: map<nat, Addr>): HopInput {
    HopInput(h.no, if h.addrId.Some? && h.addrId.value in addrs then Some(addrs[h.addrId.value]) else None,
             h.minUs, h.avgUs, h.maxUs, h.loss)
  }

  function DeInternAll(hops: seq<HopRow>, addrs: map<nat, Addr>): (out: seq<HopInput>)
    ensures |out| == |hops| && forall i :: 0 <= i < |hops| ==> out[i] == DeIntern(hops[i], addrs)
  {
    seq(|hops|, i requires 0 <= i < |hops| => DeIntern(hops[i], addrs))
  }

  function RunOf(r: RunRow, t: Tables): Run {
    Run(r.id, r.monitor, r.at, r.reached, DeInternAll(Filter(t.hops, OfRun(r.id)), t.addrs))
  }

  /** The plain list of runs that the tables stand for. */
  function Abs(t: Tables): (out: seq<Run>)
    ensures |out| == |t.runs| && forall i :: 0 <= i < |t.runs| ==> out[i] == RunOf(t.runs[i], t)
  {
    seq(|t.runs|, i requires 0 <= i < |t.runs| => RunOf(t.runs[i], t))
  }

  /** Every hop belongs to an existing run, hop counts are right, every address id
      of a hop resolves, addresses are stored once and none is unreferenced, and
      the counters are ahead of every id. */
  ghost predicate Valid(t: Tables) {
    && Ascending(t.runs)
    && (forall r :: r in t.runs ==> r.id < t.nextRun)
    && HopCountsRight(t.runs, t.hops)
    && HopsOwned(t.runs, t.hops)
    && (forall h :: h in t.hops && h.addrId.Some? ==> h.addrId.value in t.addrs)
    && Unique(t.addrs)
    && (forall a :: a in t.addrs ==> a < t.nextAddr)
    && AllReferenced(t.hops, t.addrs)
  }

  ghost predicate Unique(addrs: map<nat, Addr>) {
    forall a, b :: a in addrs && b in addrs && addrs[a] == addrs[b] ==> a == b
  }

  ghost predicate HopsOwned(runs: seq<RunRow>, hops: seq<HopRow>) {
    forall h :: h in hops ==> exists r :: r in runs && r.id == h.run
  }

  ghost predicate AllReferenced(hops: seq<HopRow>, addrs: map<nat, Addr>) {
    forall a :: a in addrs ==> Referenced(hops, a)
  }

  ghost predicate HopCountsRight(runs: seq<RunRow>, hops: seq<HopRow>) {
    forall r :: r in runs ==> r.hopCount == |Filter(hops, OfRun(r.id))|
  }

  ghost predicate Ascending(runs: seq<RunRow>) {
    forall i, j :: 0 <= i < j < |runs| ==> runs[i].id < runs[j].id
  }

  ghost predicate Referenced(hops: seq<HopRow>, a: nat) {
    exists h :: h in hops && h.addrId == Some(a)
  }

  const EMPTY := Tables([], [], map[], 1, 1)

  // ── Deleting runs ───────────────────────────────────────────────────────────

  function KeepsHop(doomed: set<nat>): HopRow -> bool { (h: HopRow) => h.run !in doomed }

  function KeepsRun(doomed: set<nat>): RunRow -> bool { (r: RunRow) => r.id !in doomed }

  function AddrIds(hops: seq<HopRow>): set<nat> {
    set h | h in hops && h.addrId.Some? :: h.addrId.value
  }

  /** The three DELETEs of a transaction: hops of the doomed runs, the runs, and
      the addresses that no hop refers to any more. */
  function DeleteRuns(t: Tables, doomed: set<nat>): Tables {
    var hops := Filter(t.hops, KeepsHop(doomed));
    t.(hops := hops, runs := Filter(t.runs, KeepsRun(doomed)),
       addrs := map a | a in t.addrs && a in AddrIds(hops) :: t.addrs[a])
  }

  function KeepsPlain(doomed: set<nat>): Run -> bool { (r: Run) => r.id !in doomed }

  lemma {:induction false} AbsFiltered(runs: seq<RunRow>, t: Tables, t': Tables, doomed: set<nat>)
    requires forall r :: r in runs && r.id !in doomed ==> RunOf(r, t) == RunOf(r, t')
    ensures Abs(t'.(runs := Filter(runs, KeepsRun(doomed)))) == Filter(Abs(t.(runs := runs)), KeepsPlain(doomed))
  {
    var kept := Filter(runs, KeepsRun(doomed));
    var plain := Abs(t.(runs := runs));
    if runs == [] {
      assert plain == [];
    } else {
      var init, last := runs[..|runs| - 1], runs[|runs| - 1];
      AbsFiltered(init, t, t', doomed);
      assert plain[..|plain| - 1] == Abs(t.(runs := init));
      assert plain[|plain| - 1] == RunOf(last, t.(runs := runs)) == RunOf(last, t);
      var before := Filter(init, KeepsRun(doomed));
      if last.id !in doomed {
        assert kept == before + [last];
        assert Abs(t'.(runs := kept)) == Abs(t'.(runs := before)) + [RunOf(last, t')];
      }
    }
  }

  lemma {:induction false} FilterKept(hops: seq<HopRow>, doomed: set<nat>, id: nat)
    requires id !in doomed
    ensures Filter(Filter(hops, KeepsHop(doomed)), OfRun(id)) == Filter(hops, OfRun(id))
  {
    if hops != [] {
      var init, last := hops[..|hops| - 1], hops[|hops| - 1];
      FilterKept(init, doomed, id);
      var kept := Filter(init, KeepsHop(doomed));
      if KeepsHop(doomed)(last) {
        FilterAppend(kept, last, OfRun(id));
      }
    }
  }

  /** Hops whose addresses both maps give alike read the same through either. */
  lemma DeInternCong(hops: seq<HopRow>, addrs: map<nat, Addr>, addrs': map<nat, Addr>)
    requires forall h :: h in hops ==> DeIntern(h, addrs) == DeIntern(h, addrs')
    ensures DeInternAll(hops, addrs) == DeInternAll(hops, addrs')
  {
  }

  lemma KeptHopSame(t: Tables, doomed: set<nat>, h: HopRow)
    requires h in t.hops && h.run !in doomed
    ensures DeIntern(h, DeleteRuns(t, doomed).addrs) == DeIntern(h, t.addrs)
  {
    assert h in DeleteRuns(t, doomed).hops;
  }

  lemma KeptRunSame(t: Tables, doomed: set<nat>, r: RunRow)
    requires r.id !in doomed
    ensures RunOf(r, DeleteRuns(t, doomed)) == RunOf(r, t)
  {
    var addrs' := DeleteRuns(t, doomed).addrs;
    var mine := Filter(t.hops, OfRun(r.id));
    forall h | h in mine
      ensures DeIntern(h, t.addrs) == DeIntern(h, addrs')
    {
      KeptHopSame(t, doomed, h);
    }
    DeInternCong(mine, t.addrs, addrs');
    FilterKept(t.hops, doomed, r.id);
  }

  /** Deleting runs from the tables is deleting them from the plain list. */
  lemma DeleteRunsRefines(t: Tables, doomed: set<nat>)
    requires Valid(t)
    ensures Abs(DeleteRuns(t, doomed)) == Filter(Abs(t), KeepsPlain(doomed))
  {
    var t' := DeleteRuns(t, doomed);
    forall r | r in t.runs && r.id !in doomed
      ensures RunOf(r, t) == RunOf(r, t')
    {
      KeptRunSame(t, doomed, r);
    }
    AbsFiltered(t.runs, t, t', doomed);
    assert t'.(runs := Filter(t.runs, KeepsRun(doomed))) == t' && t.(runs := t.runs) == t;
  }

  lemma DeleteRunsValid(t: Tables, doomed: set<nat>)
    requires Valid(t)
    ensures Valid(DeleteRuns(t, doomed))
  {
    var t' := DeleteRuns(t, doomed);
    FilterAscending(t.runs, KeepsRun(doomed));
    forall r | r in t'.runs
      ensures r.hopCount == |Filter(t'.hops, OfRun(r.id))|
    {
      FilterKept(t.hops, doomed, r.id);
    }
    forall h | h in t'.hops
      ensures exists r :: r in t'.runs && r.id == h.run
    {
      var r :| r in t.runs && r.id == h.run;
      assert r in t'.runs;
    }
    forall a | a in t'.addrs
      ensures Referenced(t'.hops, a)
    {
      var h :| h in t'.hops && h.addrId.Some? && h.addrId.value == a;
      assert h.addrId == Some(a);
    }
  }

  lemma {:induction false} FilterAscending(runs: seq<RunRow>, keep: RunRow -> bool)
    requires Ascending(runs)
    ensures Ascending(Filter(runs, keep))
  {
    if runs != [] {
      var init, last := runs[..|runs| - 1], runs[|runs| - 1];
      FilterAscending(init, keep);
      var before := Filter(init, keep);
      forall i | 0 <= i < |before|
        ensures before[i].id < last.id
      {
        assert before[i] in init;
      }
      assert Ascending(before + [last]);
    }
  }

  // ── Inserting a run ─────────────────────────────────────────────────────────

  /** INSERT ... ON CONFLICT DO NOTHING, then SELECT id: the address's id, old or new. */
  function IdOf(addrs: map<nat, Addr>, nextAddr: nat, addr: Addr): (id: nat)
    requires Unique(addrs)
    ensures id in addrs ==> addrs[id] == addr || id == nextAddr
    ensures (exists a :: a in addrs && addrs[a] == addr) ==> id in addrs && addrs[id] == addr
    ensures !(exists a :: a in addrs && addrs[a] == addr) ==> id == nextAddr
  {
    if exists a :: a in addrs && addrs[a] == addr then
      var a :| a in addrs && addrs[a] == addr; a
    else nextAddr
  }

  /** What one run's hops add to the hop and address tables. */
  ghost predicate Interned(t: Tables, id: nat, done: seq<HopInput>, added: seq<HopRow>, addrs: map<nat, Addr>,
                           nextAddr: nat)
  {
    && |added| == |done| && Unique(addrs) && nextAddr >= t.nextAddr
    && (forall j :: 0 <= j < |done| ==> added[j].run == id && DeIntern(added[j], addrs) == done[j])
    && (forall h :: h in added && h.addrId.Some? ==> h.addrId.value in addrs)
    && (forall a :: a in t.addrs ==> a in addrs && addrs[a] == t.addrs[a])
    && (forall a :: a in addrs ==> a < nextAddr && (a in t.addrs || Referenced(added, a)))
  }

  function AddrIdOf(addrs: map<nat, Addr>, nextAddr: nat, addr: Option<Addr>): Option<nat>
    requires Unique(addrs)
  {
    if addr.Some? then Some(IdOf(addrs, nextAddr, addr.value)) else None
  }

  function WithAddr(addrs: map<nat, Addr>, nextAddr: nat, addr: Option<Addr>): map<nat, Addr>
    requires Unique(addrs)
  {
    if addr.Some? then addrs[IdOf(addrs, nextAddr, addr.value) := addr.value] else addrs
  }

  function NextAddr(addrs: map<nat, Addr>, nextAddr: nat, addr: Option<Addr>): nat
    requires Unique(addrs)
  {
    if AddrIdOf(addrs, nextAddr, addr) == Some(nextAddr) then nextAddr + 1 else nextAddr
  }

  ghost predicate CacheOk(cache: map<Addr, nat>, addrs: map<nat, Addr>) {
    forall x :: x in cache ==> cache[x] in addrs && addrs[cache[x]] == x
  }

  /** Resolve one hop's address, through the run's cache when it was seen before. */
  method Intern(addr: Option<Addr>, addrs: map<nat, Addr>, nextAddr: nat, cache: map<Addr, nat>)
    returns (addrId: Option<nat>, addrs': map<nat, Addr>, nextAddr': nat, cache': map<Addr, nat>)
    requires Unique(addrs) && CacheOk(cache, addrs) && forall a :: a in addrs ==> a < nextAddr
    ensures addrId == AddrIdOf(addrs, nextAddr, addr)
    ensures addrs' == WithAddr(addrs, nextAddr, addr) && nextAddr' == NextAddr(addrs, nextAddr, addr)
    ensures CacheOk(cache', addrs')
  {
    addrId, addrs', nextAddr', cache' := None, addrs, nextAddr, cache;
    if addr.Some? {
      if addr.value in cache {
        addrId := Some(cache[addr.value]);
      } else {
        var known := IdOf(addrs, nextAddr, addr.value);
        addrs' := addrs[known := addr.value];
        nextAddr' := if known == nextAddr then nextAddr + 1 else nextAddr;
        cache' := cache[addr.value := known];
        addrId := Some(known);
      }
    }
  }

  /** Interning one address keeps every id, adds none but the address's own, and
      stays unique and below the counter. */
  lemma WithAddrFacts(addrs: map<nat, Addr>, nextAddr: nat, addr: Option<Addr>)
    requires Unique(addrs) && forall a :: a in addrs ==> a < nextAddr
    ensures var more, id := WithAddr(addrs, nextAddr, addr), AddrIdOf(addrs, nextAddr, addr);
            && Unique(more)
            && (forall a :: a in addrs ==> a in more && more[a] == addrs[a])
            && (forall a :: a in more ==> a < NextAddr(addrs, nextAddr, addr) && (a in addrs || id == Some(a)))
            && (addr.Some? ==> id.value in more && more[id.value] == addr.value)
    ensures NextAddr(addrs, nextAddr, addr) >= nextAddr
  {
    if addr.Some? {
      var id := IdOf(addrs, nextAddr, addr.value);
      if id in addrs {
        assert WithAddr(addrs, nextAddr, addr) == addrs;
      } else {
        assert forall a :: a in addrs ==> addrs[a] != addr.value;
      }
    }
  }

  lemma ReferencedMore(added: seq<HopRow>, row: HopRow, a: nat)
    requires Referenced(added, a) || row.addrId == Some(a)
    ensures Referenced(added + [row], a)
  {
    if Referenced(added, a) {
      var h :| h in added && h.addrId == Some(a);
      assert h in added + [row];
    } else {
      assert row in added + [row];
    }
  }

  lemma InternOne(t: Tables, id: nat, done: seq<HopInput>, added: seq<HopRow>,
                  addrs: map<nat, Addr>, nextAddr: nat, hop: HopInput)
    requires Interned(t, id, done, added, addrs, nextAddr)
    ensures var a := AddrIdOf(addrs, nextAddr, hop.addr);
            Interned(t, id, done + [hop], added + [HopRow(id, hop.no, a, hop.minUs, hop.avgUs, hop.maxUs, hop.loss)],
                     WithAddr(addrs, nextAddr, hop.addr), NextAddr(addrs, nextAddr, hop.addr))
  {
    var a, more := AddrIdOf(addrs, nextAddr, hop.addr), WithAddr(addrs, nextAddr, hop.addr);
    var row := HopRow(id, hop.no, a, hop.minUs, hop.avgUs, hop.maxUs, hop.loss);
    WithAddrFacts(addrs, nextAddr, hop.addr);
    assert DeIntern(row, more) == hop;
    forall j | 0 <= j < |done|
      ensures DeIntern(added[j], more) == done[j]
    {
      assert added[j] in added;
    }
    forall x | x in more && x !in t.addrs
      ensures Referenced(added + [row], x)
    {
      ReferencedMore(added, row, x);
    }
  }

  function Inserted(t: Tables, monitor: int, at: int, run: RunInput, added: seq<HopRow>, addrs: map<nat, Addr>,
                    nextAddr: nat): Tables
  {
    Tables(t.runs + [RunRow(t.nextRun, monitor, at, run.reached, |run.hops|)], t.hops + added,
           addrs, t.nextRun + 1, nextAddr)
  }

  lemma OldRunKept(t: Tables, r: RunRow, added: seq<HopRow>, addrs: map<nat, Addr>)
    requires r.id < t.nextRun && forall h :: h in t.hops && h.addrId.Some? ==> h.addrId.value in t.addrs
    requires forall h :: h in added ==> h.run == t.nextRun
    requires forall a :: a in t.addrs ==> a in addrs && addrs[a] == t.addrs[a]
    ensures DeInternAll(Filter(t.hops + added, OfRun(r.id)), addrs) == DeInternAll(Filter(t.hops, OfRun(r.id)), t.addrs)
  {
    FilterConcat(t.hops, added, OfRun(r.id));
    FilterAll(added, OfRun(r.id));
    var mine := Filter(t.hops, OfRun(r.id));
    assert Filter(t.hops + added, OfRun(r.id)) == mine;
    forall h | h in mine
      ensures DeIntern(h, addrs) == DeIntern(h, t.addrs)
    {
      assert h in t.hops;
    }
    DeInternCong(mine, addrs, t.addrs);
  }

  lemma NoHopsYet(t: Tables, h: HopRow)
    requires HopsOwned(t.runs, t.hops) && (forall r :: r in t.runs ==> r.id < t.nextRun) && h in t.hops
    ensures h.run < t.nextRun
  {
    var r :| r in t.runs && r.id == h.run;
  }

  lemma OnlyNewHops(hops: seq<HopRow>, added: seq<HopRow>, id: nat)
    requires forall h :: h in hops ==> h.run < id
    requires forall h :: h in added ==> h.run == id
    ensures Filter(hops + added, OfRun(id)) == added
  {
    FilterConcat(hops, added, OfRun(id));
    FilterAll(added, OfRun(id));
    FilterAll(hops, OfRun(id));
    assert [] + added == added;
  }

  lemma NewRunReadsBack(t: Tables, done: seq<HopInput>, added: seq<HopRow>, addrs: map<nat, Addr>, nextAddr: nat)
    requires Valid(t) && Interned(t, t.nextRun, done, added, addrs, nextAddr)
    ensures DeInternAll(Filter(t.hops + added, OfRun(t.nextRun)), addrs) == done
  {
    forall h | h in t.hops
      ensures h.run < t.nextRun
    {
      NoHopsYet(t, h);
    }
    OnlyNewHops(t.hops, added, t.nextRun);
  }

  /** Committing the rows of one run appends it to the plain list, hop for hop. */
  lemma InsertRefines(t: Tables, monitor: int, at: int, run: RunInput, added: seq<HopRow>, addrs: map<nat, Addr>,
                      nextAddr: nat)
    requires Valid(t) && Interned(t, t.nextRun, run.hops, added, addrs, nextAddr)
    ensures Abs(Inserted(t, monitor, at, run, added, addrs, nextAddr)) ==
            Abs(t) + [Run(t.nextRun, monitor, at, run.reached, run.hops)]
  {
    var t' := Inserted(t, monitor, at, run, added, addrs, nextAddr);
    forall i | 0 <= i < |t.runs|
      ensures Abs(t')[i] == Abs(t)[i]
    {
      OldRunKept(t, t.runs[i], added, addrs);
    }
    NewRunReadsBack(t, run.hops, added, addrs, nextAddr);
  }

  lemma InsertCounts(t: Tables, monitor: int, at: int, run: RunInput, added: seq<HopRow>, addrs: map<nat, Addr>,
                     nextAddr: nat)
    requires Valid(t) && Interned(t, t.nextRun, run.hops, added, addrs, nextAddr)
    ensures var t' := Inserted(t, monitor, at, run, added, addrs, nextAddr);
            HopCountsRight(t'.runs, t'.hops)
  {
    NewRunReadsBack(t, run.hops, added, addrs, nextAddr);
    forall r | r in t.runs
      ensures r.hopCount == |Filter(t.hops + added, OfRun(r.id))|
    {
      OldRunKept(t, r, added, addrs);
    }
  }

  lemma InsertOwned(runs: seq<RunRow>, hops: seq<HopRow>, newest: RunRow, added: seq<HopRow>)
    requires HopsOwned(runs, hops) && forall h :: h in added ==> h.run == newest.id
    ensures HopsOwned(runs + [newest], hops + added)
  {
    forall h | h in hops + added
      ensures exists r :: r in runs + [newest] && r.id == h.run
    {
      if h in hops {
        var r :| r in runs && r.id == h.run;
        assert r in runs + [newest];
      } else {
        assert newest in runs + [newest];
      }
    }
  }

  lemma InsertReferenced(t: Tables, added: seq<HopRow>, addrs: map<nat, Addr>)
    requires AllReferenced(t.hops, t.addrs)
    requires forall a :: a in addrs ==> a in t.addrs || Referenced(added, a)
    ensures AllReferenced(t.hops + added, addrs)
  {
    forall a | a in addrs
      ensures Referenced(t.hops + added, a)
    {
      var h :| (h in t.hops || h in added) && h.addrId == Some(a);
      assert h in t.hops + added;
    }
  }

  lemma InsertValid(t: Tables, monitor: int, at: int, run: RunInput,
                    added: seq<HopRow>, addrs: map<nat, Addr>, nextAddr: nat)
    requires Valid(t) && Interned(t, t.nextRun, run.hops, added, addrs, nextAddr)
    ensures Valid(Inserted(t, monitor, at, run, added, addrs, nextAddr))
  {
    var t' := Inserted(t, monitor, at, run, added, addrs, nextAddr);
    InsertCounts(t, monitor, at, run, added, addrs, nextAddr);
    InsertOwned(t.runs, t.hops, t'.runs[|t.runs|], added);
    InsertReferenced(t, added, addrs);
  }

  // ── The store ───────────────────────────────────────────────────────────────

  predicate DistinctNos(hops: seq<HopInput>) {
    forall i, j :: 0 <= i < j < |hops| ==> hops[i].no != hops[j].no
  }

  function NotOf(m: int): Run -> bool { (r: Run) => r.monitor != m }

  function NotOlder(m: int, cutoff: int): Run -> bool { (r: Run) => !(r.monitor == m && r.at < cutoff) }

  function Outdated(t: Tables, m: int, cutoff: int): set<nat> {
    set r | r in t.runs && r.monitor == m && r.at < cutoff :: r.id
  }

  function Owned(t: Tables, m: int): set<nat> {
    set r | r in t.runs && r.monitor == m :: r.id
  }

  lemma RowBehind(t: Tables, run: Run) returns (row: RunRow)
    requires run in Abs(t)
    ensures row in t.runs && run.id == row.id && run.monitor == row.monitor && run.at == row.at
  {
    var i :| 0 <= i < |t.runs| && run == Abs(t)[i];
    row := t.runs[i];
  }

  lemma IdOrder(rows: seq<RunRow>, i: nat, j: nat)
    requires Ascending(rows) && i < |rows| && j < |rows|
    ensures i < j ==> rows[i].id < rows[j].id
  {
  }

  lemma OneRowPerId(runs: seq<RunRow>, r: RunRow, q: RunRow)
    requires Ascending(runs) && r in runs && q in runs && r.id == q.id
    ensures r == q
  {
    var i :| 0 <= i < |runs| && runs[i] == r;
    var j :| 0 <= j < |runs| && runs[j] == q;
    IdOrder(runs, i, j);
    IdOrder(runs, j, i);
  }

  /** Naming the doomed runs by their rows' ids is naming them in the plain list. */
  lemma DoomedInList(t: Tables, doomed: set<nat>, drop: RunRow -> bool, keep: Run -> bool)
    requires Ascending(t.runs)
    requires forall id :: id in doomed <==> exists r :: r in t.runs && drop(r) && r.id == id
    requires forall run, row: RunRow ::
               run in Abs(t) && run.id == row.id && run.monitor == row.monitor && run.at == row.at ==>
                 keep(run) == !drop(row)
    ensures Filter(Abs(t), KeepsPlain(doomed)) == Filter(Abs(t), keep)
  {
    forall run | run in Abs(t)
      ensures KeepsPlain(doomed)(run) == keep(run)
    {
      var row := RowBehind(t, run);
      if run.id in doomed {
        var r :| r in t.runs && drop(r) && r.id == run.id;
        OneRowPerId(t.runs, r, row);
      }
    }
    FilterCong(Abs(t), KeepsPlain(doomed), keep);
  }

  lemma OutdatedInList(t: Tables, m: int, cutoff: int)
    requires Ascending(t.runs)
    ensures Filter(Abs(t), KeepsPlain(Outdated(t, m, cutoff))) == Filter(Abs(t), NotOlder(m, cutoff))
  {
    DoomedInList(t, Outdated(t, m, cutoff), (r: RunRow) => r.monitor == m && r.at < cutoff, NotOlder(m, cutoff));
  }

  lemma OwnedInList(t: Tables, m: int)
    requires Ascending(t.runs)
    ensures Filter(Abs(t), KeepsPlain(Owned(t, m))) == Filter(Abs(t), NotOf(m))
  {
    DoomedInList(t, Owned(t, m), (r: RunRow) => r.monitor == m, NotOf(m));
  }

  class Store {
    var t: Tables

    constructor ()
      ensures t == EMPTY && Valid(t)
    {
      t := EMPTY;
    }

    /** One transaction.  It fails as a whole when a statement does, and always
        when two hops share a number, which the primary key forbids. */
    method InsertTraceroute(monitor: int, at: int, run: RunInput) returns (ok: bool)
      requires Valid(t)
      modifies this
      ensures Valid(t)
      ensures ok ==> DistinctNos(run.hops)
      ensures ok ==> Abs(t) == old(Abs(t)) + [Run(old(t.nextRun), monitor, at, run.reached, run.hops)]
      ensures ok ==> t.nextRun == old(t.nextRun) + 1
      ensures !ok ==> t == old(t)
    {
      var id := t.nextRun;
      var added: seq<HopRow>, addrs, nextAddr := [], t.addrs, t.nextAddr;
      var cache: map<Addr, nat> := map[];
      for i := 0 to |run.hops|
        invariant t == old(t)
        invariant Interned(t, id, run.hops[..i], added, addrs, nextAddr)
        invariant CacheOk(cache, addrs)
        invariant DistinctNos(run.hops[..i])
      {
        var hop := run.hops[i];
        InternOne(t, id, run.hops[..i], added, addrs, nextAddr, hop);
        assert run.hops[..i + 1] == run.hops[..i] + [hop];
        var addrId;
        addrId, addrs, nextAddr, cache := Intern(hop.addr, addrs, nextAddr, cache);
        var failed: bool := *;
        if failed || exists j :: 0 <= j < i && run.hops[j].no == hop.no {
          return false;
        }
        added := added + [HopRow(id, hop.no, addrId, hop.minUs, hop.avgUs, hop.maxUs, hop.loss)];
      }
      assert run.hops[..|run.hops|] == run.hops;
      InsertRefines(t, monitor, at, run, added, addrs, nextAddr);
      InsertValid(t, monitor, at, run, added, addrs, nextAddr);
      t := Inserted(t, monitor, at, run, added, addrs, nextAddr);
      return true;
    }

    /** Drop a monitor's runs older than the cutoff, in one transaction: a failing
        statement rolls it back. */
    method PruneTraceroute(monitor: int, cutoff: int) returns (deleted: Option<nat>)
      requires Valid(t)
      modifies this
      ensures Valid(t) && t.nextRun == old(t.nextRun)
      ensures deleted.Some? ==>
                Abs(t) == Filter(old(Abs(t)), NotOlder(monitor, cutoff)) && deleted.value == |old(t.runs)| - |t.runs|
      ensures deleted.Some? ==>
                KeepsExactly(old(Abs(t)), (r: Run) => r.monitor != monitor || r.at >= cutoff, Abs(t))
      ensures deleted.None? ==> t == old(t)
    {
      var failed: bool := *;
      if failed {
        return None;
      }
      var doomed := Outdated(t, monitor, cutoff);
      DeleteRunsRefines(t, doomed);
      DeleteRunsValid(t, doomed);
      OutdatedInList(t, monitor, cutoff);
      FilterShrinks(t.runs, KeepsRun(doomed));
      FilterKeepsAs(Abs(t), NotOlder(monitor, cutoff), (r: Run) => r.monitor != monitor || r.at >= cutoff);
      var before := |t.runs|;
      t := DeleteRuns(t, doomed);
      return Some(before - |t.runs|);
    }

    /** Drop everything of a monitor, or nothing. */
    method DeleteTraceroute(monitor: int) returns (ok: bool)
      requires Valid(t)
      modifies this
      ensures Valid(t) && t.nextRun == old(t.nextRun)
      ensures ok ==> Abs(t) == Filter(old(Abs(t)), NotOf(monitor))
      ensures ok ==> KeepsExactly(old(Abs(t)), (r: Run) => r.monitor != monitor, Abs(t))
      ensures !ok ==> t == old(t)
    {
      var failed: bool := *;
      if failed {
        return false;
      }
      var doomed := Owned(t, monitor);
      DeleteRunsRefines(t, doomed);
      DeleteRunsValid(t, doomed);
      OwnedInList(t, monitor);
      FilterKeepsAs(Abs(t), NotOf(monitor), (r: Run) => r.monitor != monitor);
      t := DeleteRuns(t, doomed);
      return true;
    }
  }
}
