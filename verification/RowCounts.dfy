/** What filtering and aggregating mean, row by row. */
module RowCounts {
  import opened Samples

  // ── Filters ─────────────────────────────────────────────────────────────────

  /** `part` is what is left of `whole` when some of its items are struck out. */
  predicate InOrder<T(==)>(part: seq<T>, whole: seq<T>)
    decreases |whole|
  {
    || part == []
    || (whole != [] && if part[|part| - 1] == whole[|whole| - 1]
                       then InOrder(part[..|part| - 1], whole[..|whole| - 1])
                       else InOrder(part, whole[..|whole| - 1]))
  }

  /** Exactly the rows that pass are kept, as often and in the order as they were. */
  ghost predicate KeepsExactly<T(!new)>(rows: seq<T>, keep: T -> bool, kept: seq<T>) {
    && InOrder(kept, rows)
    && forall r :: multiset(kept)[r] == if keep(r) then multiset(rows)[r] else 0
  }

  lemma {:induction false} FilterKeeps<T(!new)>(rows: seq<T>, keep: T -> bool)
    ensures KeepsExactly(rows, keep, Filter(rows, keep))
  {
    if rows != [] {
      var init, last := rows[..|rows| - 1], rows[|rows| - 1];
      FilterKeeps(init, keep);
      assert multiset(rows) == multiset(init) + multiset{last} by {
        assert rows == init + [last];
      }
      if !keep(last) {
        FilterDrops(init, last, keep);
      }
    }
  }

  /** The same for another way to write the condition. */
  lemma FilterKeepsAs<T(!new)>(rows: seq<T>, keep: T -> bool, plain: T -> bool)
    requires forall r :: keep(r) == plain(r)
    ensures KeepsExactly(rows, plain, Filter(rows, keep))
  {
    FilterKeeps(rows, keep);
  }

  lemma FilterDrops<T(!new)>(init: seq<T>, last: T, keep: T -> bool)
    requires !keep(last) && InOrder(Filter(init, keep), init)
    ensures InOrder(Filter(init, keep), init + [last])
  {
    var kept := Filter(init, keep);
    assert (init + [last])[..|init|] == init;
    if kept != [] {
      assert kept[|kept| - 1] in kept;
    }
  }

  lemma {:induction false} FilterBoth<T(!new)>(rows: seq<T>, p: T -> bool, q: T -> bool, both: T -> bool)
    requires forall r :: both(r) <==> p(r) && q(r)
    ensures Filter(Filter(rows, p), q) == Filter(rows, both)
  {
    if rows != [] {
      var init, last := rows[..|rows| - 1], rows[|rows| - 1];
      FilterBoth(init, p, q, both);
      if p(last) {
        FilterAppend(Filter(init, p), last, q);
      }
    }
  }

  // ── Aggregates ──────────────────────────────────────────────────────────────

  /** The response times of these rows, added up. */
  function TotalMs(rows: seq<Row>): nat {
    if rows == [] then 0 else (if rows[0].ms.Some? then rows[0].ms.value else 0) + TotalMs(rows[1..])
  }

  lemma {:induction false} TotalMsAppend(rows: seq<Row>, r: Row)
    ensures TotalMs(rows + [r]) == TotalMs(rows) + if r.ms.Some? then r.ms.value else 0
  {
    if rows == [] {
      assert rows + [r] == [r] && [r][1..] == [];
    } else {
      assert (rows + [r])[1..] == rows[1..] + [r];
      TotalMsAppend(rows[1..], r);
    }
  }

  /** COUNT is the number of the selected rows, the 'up' number that of the 'up' rows
      among them, and SUM adds up the response times of those. */
  lemma {:induction false} AggregateCounts(rows: seq<Row>, p: Row -> bool)
    ensures var a := Aggregate(rows, p);
            && a.count == |Filter(rows, p)|
            && a.up == |Filter(rows, UpOnly(p))|
            && a.sum == TotalMs(Filter(rows, UpOnly(p)))
  {
    if rows != [] {
      var init, last := rows[..|rows| - 1], rows[|rows| - 1];
      AggregateCounts(init, p);
      TotalMsAppend(Filter(init, UpOnly(p)), last);
    }
  }

  /** A share of a number, as a fraction. */
  lemma QuotientTimes(x: nat, y: nat)
    requires y > 0
    ensures x as real / y as real * y as real == x as real
  {
  }

  // ── Numbers ─────────────────────────────────────────────────────────────────

  /** The numbers below `n`, in order. */
  function UpTo(n: nat): (s: seq<nat>)
    ensures |s| == n && forall i :: 0 <= i < n ==> s[i] == i
  {
    seq(n, i => i)
  }

  lemma UpToNext(n: nat)
    ensures UpTo(n + 1) == UpTo(n) + [n]
  {
  }

  function Total(s: seq<nat>): nat {
    if s == [] then 0 else s[0] + Total(s[1..])
  }

  lemma {:induction false} TotalAppend(s: seq<nat>, x: nat)
    ensures Total(s + [x]) == Total(s) + x
  {
    if s == [] {
      assert s + [x] == [x] && [x][1..] == [];
    } else {
      assert (s + [x])[1..] == s[1..] + [x];
      TotalAppend(s[1..], x);
    }
  }
}
