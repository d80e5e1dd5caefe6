/** Probe rows and their aggregates.

The SQL of the rollup and of the chart queries groups rows and computes COUNT,
SUM, MIN and MAX over each group.  Those five figures form a commutative monoid,
which is what makes an aggregate of aggregates equal to the aggregate of the rows. */
module Samples {

  datatype Option<+T> = None | Some(value: T)

  /** One row of `probe_results`.  `at` is the epoch stamp in milliseconds. */
  datatype Row = Row(monitor: Option<int>, at: nat, up: bool, ms: Option<nat>, detail: Option<string>)

  /** A group's COUNT(*), number of 'up' rows, SUM over 'up' rows, MIN and MAX. */
  datatype Agg = Agg(count: nat, up: nat, sum: nat, lo: Option<nat>, hi: Option<nat>)

  const NOTHING := Agg(0, 0, 0, None, None)

  function MinOpt(a: Option<nat>, b: Option<nat>): Option<nat> {
    if a.None? then b else if b.None? then a
    else if a.value <= b.value then a else b
  }

  function MaxOpt(a: Option<nat>, b: Option<nat>): Option<nat> {
    if a.None? then b else if b.None? then a
    else if a.value <= b.value then b else a
  }

  function Join(a: Agg, b: Agg): Agg {
    Agg(a.count + b.count, a.up + b.up, a.sum + b.sum, MinOpt(a.lo, b.lo), MaxOpt(a.hi, b.hi))
  }

  function Single(r: Row): Agg {
    Agg(1, if r.up then 1 else 0, if r.up && r.ms.Some? then r.ms.value else 0, r.ms, r.ms)
  }

  /** The aggregate of the rows selected by `p`. */
  function Aggregate(rows: seq<Row>, p: Row -> bool): Agg {
    if rows == [] then NOTHING else
      var rest := Aggregate(rows[..|rows| - 1], p);
      var last := rows[|rows| - 1];
      if p(last) then Join(rest, Single(last)) else rest
  }

  function Filter<T(!new)>(rows: seq<T>, keep: T -> bool): (kept: seq<T>)
    ensures forall r :: r in kept <==> r in rows && keep(r)
  {
    if rows == [] then [] else
      var rest := Filter(rows[..|rows| - 1], keep);
      var last := rows[|rows| - 1];
      if keep(last) then rest + [last] else rest
  }

  lemma AggregateAppend(rows: seq<Row>, r: Row, p: Row -> bool)
    ensures Aggregate(rows + [r], p) ==
            if p(r) then Join(Aggregate(rows, p), Single(r)) else Aggregate(rows, p)
  {
    assert (rows + [r])[..|rows|] == rows;
  }

  /** Two selections that agree on every stored row have one aggregate. */
  lemma {:induction false} AggregateCong(rows: seq<Row>, p: Row -> bool, q: Row -> bool)
    requires forall r :: r in rows ==> p(r) == q(r)
    ensures Aggregate(rows, p) == Aggregate(rows, q)
  {
    if rows != [] {
      AggregateCong(rows[..|rows| - 1], p, q);
    }
  }

  /** Appending one sample to either side of a join appends it to the join. */
  lemma JoinSingle(a: Agg, b: Agg, s: Agg)
    ensures Join(Join(a, s), b) == Join(Join(a, b), s)
    ensures Join(a, Join(b, s)) == Join(Join(a, b), s)
  {
  }

  lemma JoinNothing(a: Agg)
    ensures Join(a, NOTHING) == a && Join(NOTHING, a) == a
  {
  }

  /** Aggregating a disjoint union joins the two aggregates. */
  lemma {:induction false} AggregateUnion(rows: seq<Row>, p: Row -> bool, q: Row -> bool, both: Row -> bool)
    requires forall r :: r in rows ==> !(p(r) && q(r)) && (both(r) <==> p(r) || q(r))
    ensures Aggregate(rows, both) == Join(Aggregate(rows, p), Aggregate(rows, q))
  {
    if rows == [] {
      assert Aggregate(rows, both) == NOTHING && Aggregate(rows, p) == NOTHING && Aggregate(rows, q) == NOTHING;
    } else {
      var init, last := rows[..|rows| - 1], rows[|rows| - 1];
      AggregateUnion(init, p, q, both);
      JoinSingle(Aggregate(init, p), Aggregate(init, q), Single(last));
      assert last in rows;
    }
  }

  /** A wider selection counts no less. */
  lemma {:induction false} AggregateWider(rows: seq<Row>, p: Row -> bool, q: Row -> bool)
    requires forall r :: r in rows && p(r) ==> q(r)
    ensures Aggregate(rows, p).count <= Aggregate(rows, q).count
  {
    if rows != [] {
      AggregateWider(rows[..|rows| - 1], p, q);
    }
  }

  /** `a` and `b`, and `c` and `d`, are two ways to split the same rows in two. */
  ghost predicate TwoSplits(rows: seq<Row>, a: Row -> bool, b: Row -> bool, c: Row -> bool, d: Row -> bool) {
    forall r :: r in rows ==> !(a(r) && b(r)) && !(c(r) && d(r)) && (a(r) || b(r) <==> c(r) || d(r))
  }

  lemma AggregateTwoSplits(rows: seq<Row>, a: Row -> bool, b: Row -> bool, c: Row -> bool, d: Row -> bool)
    requires TwoSplits(rows, a, b, c, d)
    ensures Join(Aggregate(rows, a), Aggregate(rows, b)) == Join(Aggregate(rows, c), Aggregate(rows, d))
  {
    var all := (r: Row) => a(r) || b(r);
    AggregateUnion(rows, a, b, all);
    AggregateUnion(rows, c, d, all);
  }

  lemma {:induction false} AggregateNone(rows: seq<Row>, p: Row -> bool)
    ensures Aggregate(rows, p).count > 0 <==> exists r :: r in rows && p(r)
    ensures Aggregate(rows, p).count == 0 ==> Aggregate(rows, p) == NOTHING
    ensures Aggregate(rows, p).up <= Aggregate(rows, p).count
  {
    if rows != [] {
      AggregateNone(rows[..|rows| - 1], p);
      assert rows == rows[..|rows| - 1] + [rows[|rows| - 1]];
    }
  }

  // ── Minima and maxima ───────────────────────────────────────────────────────

  /** MIN and MAX are there exactly when a selected row has a response time; they are
      attained, and bound every response time. */
  lemma {:induction false} AggregateBounds(rows: seq<Row>, p: Row -> bool)
    ensures var a := Aggregate(rows, p);
            && (a.lo.Some? <==> a.hi.Some?)
            && (a.lo.Some? <==> exists r :: r in rows && Timed(p)(r))
            && (a.lo.Some? ==> exists r :: r in rows && Timed(p)(r) && r.ms == a.lo)
            && (a.hi.Some? ==> exists r :: r in rows && Timed(p)(r) && r.ms == a.hi)
            && forall r :: r in rows && Timed(p)(r) ==> a.lo.value <= r.ms.value <= a.hi.value
  {
    if rows != [] {
      var init, last := rows[..|rows| - 1], rows[|rows| - 1];
      AggregateBounds(init, p);
      assert forall r :: r in rows <==> r in init || r == last;
      assert last in rows;
    }
  }

  /** Selected rows that have a response time. */
  function Timed(p: Row -> bool): Row -> bool {
    (r: Row) => p(r) && r.ms.Some?
  }

  function UpOnly(p: Row -> bool): Row -> bool {
    (r: Row) => p(r) && r.up
  }

  /** The selected 'up' rows have a response time at or below this one, and one at or above. */
  ghost predicate BetweenUpRows(rows: seq<Row>, p: Row -> bool, ms: nat) {
    && (exists q :: q in rows && Timed(UpOnly(p))(q) && q.ms.value <= ms)
    && (exists q :: q in rows && Timed(UpOnly(p))(q) && q.ms.value >= ms)
  }

  /** MIN and MAX over a group are those over its 'up' rows if and only if every
      response time of another row lies between two of 'up' rows; so they are when
      response times exist exactly on the 'up' rows. */
  lemma ExtremesOfUpRows(rows: seq<Row>, p: Row -> bool)
    ensures var all, ups := Aggregate(rows, p), Aggregate(rows, UpOnly(p));
            all.lo == ups.lo && all.hi == ups.hi <==>
            forall r :: r in rows && Timed(p)(r) && !r.up ==> BetweenUpRows(rows, p, r.ms.value)
    ensures (forall r :: r in rows && p(r) ==> (r.up <==> r.ms.Some?)) ==>
              && Aggregate(rows, p).lo == Aggregate(rows, UpOnly(p)).lo
              && Aggregate(rows, p).hi == Aggregate(rows, UpOnly(p)).hi
  {
    AggregateBounds(rows, p);
    AggregateBounds(rows, UpOnly(p));
    var all, ups := Aggregate(rows, p), Aggregate(rows, UpOnly(p));
    forall r | r in rows
      ensures Timed(UpOnly(p))(r) <==> Timed(p)(r) && r.up
    {
    }
    if all.lo == ups.lo && all.hi == ups.hi {
      forall r | r in rows && Timed(p)(r) && !r.up
        ensures BetweenUpRows(rows, p, r.ms.value)
      {
        var low :| low in rows && Timed(UpOnly(p))(low) && low.ms == ups.lo;
        var high :| high in rows && Timed(UpOnly(p))(high) && high.ms == ups.hi;
      }
    } else {
      OutsideUpRows(rows, p);
    }
  }

  lemma OutsideUpRows(rows: seq<Row>, p: Row -> bool)
    requires var all, ups := Aggregate(rows, p), Aggregate(rows, UpOnly(p)); all.lo != ups.lo || all.hi != ups.hi
    ensures exists r :: r in rows && Timed(p)(r) && !r.up && !BetweenUpRows(rows, p, r.ms.value)
  {
    AggregateBounds(rows, p);
    AggregateBounds(rows, UpOnly(p));
    var all, ups := Aggregate(rows, p), Aggregate(rows, UpOnly(p));
    var r :| r in rows && Timed(p)(r) && (if all.lo != ups.lo then r.ms == all.lo else r.ms == all.hi);
    assert r.up ==> Timed(UpOnly(p))(r);
    if ups.lo.Some? && all.lo == ups.lo {
      assert r.ms.value > ups.hi.value;
    }
  }

  /** A group whose 'down' row has a response time: its minimum is that row's. */
  lemma DownRowSetsMinimum()
    ensures var rows := [Row(Some(0), 0, false, Some(5), None), Row(Some(0), 1, true, Some(9), None)];
            var p := (r: Row) => true;
            Aggregate(rows, p).lo == Some(5) && Aggregate(rows, UpOnly(p)).lo == Some(9)
  {
    var down, up := Row(Some(0), 0, false, Some(5), None), Row(Some(0), 1, true, Some(9), None);
    var p := (r: Row) => true;
    AggregatePair(down, up, p);
    AggregatePair(down, up, UpOnly(p));
  }

  lemma AggregatePair(a: Row, b: Row, p: Row -> bool)
    ensures var first := if p(a) then Single(a) else NOTHING;
            Aggregate([a, b], p) == if p(b) then Join(first, Single(b)) else first
  {
    assert [] + [a] == [a] && [a] + [b] == [a, b];
    AggregateAppend([], a, p);
    AggregateAppend([a], b, p);
    JoinNothing(Single(a));
  }

  // ── Deleting ────────────────────────────────────────────────────────────────

  /** Deleting rows only removes them from the selections that named them. */
  lemma {:induction false} AggregateFilter(rows: seq<Row>, keep: Row -> bool, p: Row -> bool)
    requires forall r :: r in rows && p(r) ==> keep(r)
    ensures Aggregate(Filter(rows, keep), p) == Aggregate(rows, p)
  {
    if rows != [] {
      var init, last := rows[..|rows| - 1], rows[|rows| - 1];
      AggregateFilter(init, keep, p);
      if keep(last) {
        AggregateAppend(Filter(init, keep), last, p);
      }
    }
  }

  // ── Filters ─────────────────────────────────────────────────────────────────

  lemma FilterAppend<T(!new)>(rows: seq<T>, r: T, keep: T -> bool)
    ensures Filter(rows + [r], keep) == if keep(r) then Filter(rows, keep) + [r] else Filter(rows, keep)
  {
    assert (rows + [r])[..|rows|] == rows;
  }

  lemma {:induction false} FilterTwice<T(!new)>(rows: seq<T>, keep: T -> bool, q: T -> bool)
    requires forall r :: r in rows && q(r) ==> keep(r)
    ensures Filter(Filter(rows, keep), q) == Filter(rows, q)
  {
    if rows != [] {
      var init, last := rows[..|rows| - 1], rows[|rows| - 1];
      FilterTwice(init, keep, q);
      assert (Filter(init, keep) + [last])[..|Filter(init, keep)|] == Filter(init, keep);
    }
  }

  lemma {:induction false} FilterShrinks<T(!new)>(rows: seq<T>, keep: T -> bool)
    ensures |Filter(rows, keep)| <= |rows|
  {
    if rows != [] {
      FilterShrinks(rows[..|rows| - 1], keep);
    }
  }

  lemma {:induction false} FilterCong<T(!new)>(rows: seq<T>, p: T -> bool, q: T -> bool)
    requires forall r :: r in rows ==> p(r) == q(r)
    ensures Filter(rows, p) == Filter(rows, q)
  {
    if rows != [] {
      FilterCong(rows[..|rows| - 1], p, q);
    }
  }

  lemma {:induction false} FilterConcat<T(!new)>(a: seq<T>, b: seq<T>, keep: T -> bool)
    ensures Filter(a + b, keep) == Filter(a, keep) + Filter(b, keep)
  {
    if b == [] {
      assert a + b == a;
    } else {
      var init, last := b[..|b| - 1], b[|b| - 1];
      FilterConcat(a, init, keep);
      assert a + b == (a + init) + [last];
      FilterAppend(a + init, last, keep);
    }
  }

  lemma {:induction false} FilterAll<T(!new)>(rows: seq<T>, keep: T -> bool)
    ensures (forall r :: r in rows ==> keep(r)) ==> Filter(rows, keep) == rows
    ensures (forall r :: r in rows ==> !keep(r)) ==> Filter(rows, keep) == []
  {
    if rows != [] {
      FilterAll(rows[..|rows| - 1], keep);
      assert rows == rows[..|rows| - 1] + [rows[|rows| - 1]];
    }
  }
}
