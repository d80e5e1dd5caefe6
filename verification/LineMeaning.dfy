/** What a line of the traceroute detail table says about the stored hops. */
module LineMeaning {
  import opened Samples
  import opened RowCounts
  import opened TraceStore
  import opened TraceQueries

  /** The losses of these hops, in order. */
  function Losses(hops: seq<HopInput>): (s: seq<nat>)
    ensures |s| == |hops| && forall i :: 0 <= i < |hops| ==> s[i] == hops[i].loss
  {
    seq(|hops|, i requires 0 <= i < |hops| => hops[i].loss)
  }

  predicate HasMean(h: HopInput) { h.avgUs.Some? }

  /** The hops that have a mean, in order. */
  function WithMean(hops: seq<HopInput>): (timed: seq<HopInput>)
    ensures forall i :: 0 <= i < |timed| ==> timed[i].avgUs.Some?
  {
    var timed := Filter(hops, HasMean);
    assert forall i :: 0 <= i < |timed| ==> timed[i] in timed;
    timed
  }

  /** The means of hops that have one, in order. */
  function Means(hops: seq<HopInput>): (s: seq<nat>)
    requires forall i :: 0 <= i < |hops| ==> hops[i].avgUs.Some?
    ensures |s| == |hops| && forall i :: 0 <= i < |hops| ==> Some(s[i]) == hops[i].avgUs
  {
    seq<nat>(|hops|, i requires 0 <= i < |hops| => hops[i].avgUs.value)
  }

  /** A line in milliseconds over stored hops in microseconds. */
  ghost predicate LineSays(line: HopAgg, hops: seq<HopInput>) {
    && line.samples == |hops| > 0
    && (line.reachable <==> exists h :: h in hops && h.addr.Some?)
    && line.loss == Total(Losses(hops))
    && MinSays(line.minMs, hops) && MaxSays(line.maxMs, hops) && MeanSays(line.avgMs, WithMean(hops))
  }

  ghost predicate MinSays(ms: Option<real>, hops: seq<HopInput>) {
    && (ms.Some? <==> exists h :: h in hops && h.minUs.Some?)
    && (ms.Some? ==> exists h :: h in hops && h.minUs.Some? && ms.value * 1000.0 == h.minUs.value as real)
    && (ms.Some? ==> forall h :: h in hops && h.minUs.Some? ==> ms.value * 1000.0 <= h.minUs.value as real)
  }

  ghost predicate MaxSays(ms: Option<real>, hops: seq<HopInput>) {
    && (ms.Some? <==> exists h :: h in hops && h.maxUs.Some?)
    && (ms.Some? ==> exists h :: h in hops && h.maxUs.Some? && ms.value * 1000.0 == h.maxUs.value as real)
    && (ms.Some? ==> forall h :: h in hops && h.maxUs.Some? ==> h.maxUs.value as real <= ms.value * 1000.0)
  }

  ghost predicate MeanSays(ms: Option<real>, timed: seq<HopInput>)
    requires forall i :: 0 <= i < |timed| ==> timed[i].avgUs.Some?
  {
    && (ms.None? <==> timed == [])
    && (ms.Some? ==> ms.value * 1000.0 * |timed| as real == Total(Means(timed)) as real)
  }

  // ── The figures ─────────────────────────────────────────────────────────────

  /** The integer figures over the hops of one number. */
  ghost predicate FiguresSay(f: Figures, hops: seq<HopInput>) {
    var timed := WithMean(hops);
    && f.samples == |hops|
    && (f.responded > 0 <==> exists h :: h in hops && h.addr.Some?)
    && f.loss == Total(Losses(hops))
    && f.numAvg == |timed| && f.sumAvg == Total(Means(timed))
    && IsLeast(f.lo, hops) && IsGreatest(f.hi, hops)
  }

  ghost predicate IsLeast(lo: Option<nat>, hops: seq<HopInput>) {
    && (lo.Some? <==> exists h :: h in hops && h.minUs.Some?)
    && (lo.Some? ==> exists h :: h in hops && h.minUs == lo)
    && (lo.Some? ==> forall h :: h in hops && h.minUs.Some? ==> lo.value <= h.minUs.value)
  }

  ghost predicate IsGreatest(hi: Option<nat>, hops: seq<HopInput>) {
    && (hi.Some? <==> exists h :: h in hops && h.maxUs.Some?)
    && (hi.Some? ==> exists h :: h in hops && h.maxUs == hi)
    && (hi.Some? ==> forall h :: h in hops && h.maxUs.Some? ==> h.maxUs.value <= hi.value)
  }

  lemma OneMoreExtreme(f: Figures, hops: seq<HopInput>, h: HopInput)
    requires IsLeast(f.lo, hops) && IsGreatest(f.hi, hops)
    ensures var g := AddHop(f, h.addr.Some?, h); IsLeast(g.lo, hops + [h]) && IsGreatest(g.hi, hops + [h])
  {
    assert forall x :: x in hops + [h] <==> x in hops || x == h;
  }

  lemma OneMoreLoss(hops: seq<HopInput>, h: HopInput)
    ensures Total(Losses(hops + [h])) == Total(Losses(hops)) + h.loss
  {
    assert Losses(hops + [h]) == Losses(hops) + [h.loss];
    TotalAppend(Losses(hops), h.loss);
  }

  lemma OneMoreMean(hops: seq<HopInput>, h: HopInput)
    ensures |WithMean(hops + [h])| == |WithMean(hops)| + if h.avgUs.Some? then 1 else 0
    ensures Total(Means(WithMean(hops + [h]))) ==
            Total(Means(WithMean(hops))) + if h.avgUs.Some? then h.avgUs.value else 0
  {
    FilterAppend(hops, h, HasMean);
    if h.avgUs.Some? {
      assert Means(WithMean(hops) + [h]) == Means(WithMean(hops)) + [h.avgUs.value];
      TotalAppend(Means(WithMean(hops)), h.avgUs.value);
    }
  }

  lemma OneMoreHop(f: Figures, hops: seq<HopInput>, h: HopInput)
    requires FiguresSay(f, hops)
    ensures FiguresSay(AddHop(f, h.addr.Some?, h), hops + [h])
  {
    OneMoreExtreme(f, hops, h);
    OneMoreLoss(hops, h);
    OneMoreMean(hops, h);
    assert forall x :: x in hops + [h] <==> x in hops || x == h;
  }

  lemma {:induction false} PlainFiguresSay(hops: seq<HopInput>, no: nat, mine: HopInput -> bool)
    requires forall h :: mine(h) <==> h.no == no
    ensures FiguresSay(PlainFigures(hops, no), Filter(hops, mine))
  {
    if hops != [] {
      var init, last := hops[..|hops| - 1], hops[|hops| - 1];
      PlainFiguresSay(init, no, mine);
      if mine(last) {
        OneMoreHop(PlainFigures(init, no), Filter(init, mine), last);
      }
    }
  }

  // ── The line ────────────────────────────────────────────────────────────────

  lemma Milliseconds(us: nat)
    ensures us as real / 1000.0 * 1000.0 == us as real
  {
  }

  lemma LeastInMs(lo: Option<nat>, hops: seq<HopInput>)
    requires IsLeast(lo, hops)
    ensures MinSays(Ms(lo), hops)
  {
    if lo.Some? {
      Milliseconds(lo.value);
    }
  }

  lemma GreatestInMs(hi: Option<nat>, hops: seq<HopInput>)
    requires IsGreatest(hi, hops)
    ensures MaxSays(Ms(hi), hops)
  {
    if hi.Some? {
      Milliseconds(hi.value);
    }
  }

  lemma MeanInMs(sum: real, number: real)
    requires number > 0.0
    ensures sum / number / 1000.0 * 1000.0 * number == sum
  {
    var mean := sum / number;
    assert mean * number == sum;
    assert mean / 1000.0 * 1000.0 == mean;
  }

  lemma ToLine(f: Figures, addr: Option<Addr>, hops: seq<HopInput>)
    requires FiguresSay(f, hops)
    ensures ToAgg(f, addr).None? <==> hops == []
    ensures ToAgg(f, addr).Some? ==> LineSays(ToAgg(f, addr).value, hops) && ToAgg(f, addr).value.addr == addr
  {
    LeastInMs(f.lo, hops);
    GreatestInMs(f.hi, hops);
    if f.numAvg > 0 {
      MeanInMs(f.sumAvg as real, f.numAvg as real);
    }
  }

  /** A line is there exactly for the hop numbers that runs of the window have, and says
      this of their hops: how many, how many queries lost in all, the least and the
      greatest time, and the mean of their means. */
  lemma DetailSays(first: Tables, second: Tables, third: Tables, m: int, from: int, to: int, no: nat,
                   inside: Run -> bool, mine: HopInput -> bool)
    requires Valid(first) && forall h :: mine(h) <==> h.no == no
    requires forall r :: inside(r) <==> r.monitor == m && from <= r.at && r.at <= to
    ensures var hops := Filter(AllHops(Filter(Abs(first), inside)), mine);
            var line := GetHopAcross(first, second, third, m, from, to, no);
            (line.None? <==> hops == []) && (line.Some? ==> LineSays(line.value, hops))
  {
    var rows := Filter(first.runs, RowInWindow(m, from, to));
    FilterCong(Abs(first), inside, InWindow(m, from, to));
    WindowOfList(first.runs, first, m, from, to);
    assert Abs(first) == RunsOf(first.runs, first);
    FiguresRefine(first, rows, no);
    var hops := AllHops(RunsOf(rows, first));
    PlainFiguresSay(hops, no, mine);
    var latest := Filter(second.runs, RowInWindow(m, from, to));
    ToLine(PlainFigures(hops, no),
           if latest == [] then None else AddrIn(Filter(third.hops, OfRun(MaxId(latest))), third.addrs, no),
           Filter(hops, mine));
  }
}
