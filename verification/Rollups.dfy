/** The per-minute rollup table and the SQL statements that maintain it. */
module Rollups {
  import opened Samples

  /** Primary key of `probe_rollup_1m`: monitor and minute start in epoch seconds. */
  datatype Key = Key(monitor: int, bucket: nat)

  type Table = map<Key, Agg>

  const DAY: nat := 86_400

  /** `(checked_at / 60000) * 60`: the start, in seconds, of the minute of a stamp. */
  function Minute(at: nat): nat { at / 60_000 * 60 }

  function InMinute(m: int, b: nat): Row -> bool {
    (r: Row) => r.monitor == Some(m) && Minute(r.at) == b
  }

  /** The WHERE clause of `roll_up_range` together with one group of its GROUP BY. */
  function InGroup(k: Key, from: nat, to: nat): Row -> bool {
    (r: Row) => r.monitor == Some(k.monitor) && Minute(r.at) == k.bucket && from * 1000 <= r.at < to * 1000
  }

  /** The groups that `roll_up_range` produces. */
  function Groups(raw: seq<Row>, from: nat, to: nat): set<Key> {
    set r | r in raw && r.monitor.Some? && from * 1000 <= r.at < to * 1000 :: Key(r.monitor.value, Minute(r.at))
  }

  /** INSERT OR REPLACE of every group of [from, to) into the table. */
  function RollRange(t: Table, raw: seq<Row>, from: nat, to: nat): Table {
    var groups := Groups(raw, from, to);
    map k | k in t.Keys + groups :: if k in groups then Aggregate(raw, InGroup(k, from, to)) else t[k]
  }

  ghost predicate HasRows(raw: seq<Row>, m: int, b: nat) {
    exists r :: r in raw && InMinute(m, b)(r)
  }

  /** The table is right about one minute of one monitor: it has a row for that
      minute exactly when the raw table has rows in it, and it is their aggregate. */
  ghost predicate Coherent(raw: seq<Row>, t: Table, m: int, b: nat) {
    && (Key(m, b) in t <==> HasRows(raw, m, b))
    && (Key(m, b) in t ==> t[Key(m, b)] == Aggregate(raw, InMinute(m, b)))
  }

  /** MAX(bucket_epoch) over the whole table, None when it is empty. */
  ghost predicate IsWatermark(t: Table, w: Option<nat>) {
    match w
    case None => t == map[]
    case Some(top) => (exists k :: k in t && k.bucket == top) && forall k :: k in t ==> k.bucket <= top
  }

  lemma MinuteFacts(at: nat)
    ensures Minute(at) % 60 == 0
    ensures Minute(at) * 1000 <= at < (Minute(at) + 60) * 1000
  {
  }

  lemma MinutesFollowTime(at: nat, later: nat)
    requires at <= later
    ensures Minute(at) <= Minute(later)
  {
  }

  /** A stamp lies in an aligned range of seconds exactly when its minute does. */
  lemma MinuteInRange(at: nat, from: nat, to: nat)
    requires from % 60 == 0 && to % 60 == 0
    ensures from * 1000 <= at < to * 1000 <==> from <= Minute(at) < to
  {
    MinuteFacts(at);
  }

  /** Rolling an aligned range makes every minute of it the aggregate of all of
      its rows, writes no minute that has none, and leaves the rest alone. */
  lemma RollRangeAt(t: Table, raw: seq<Row>, from: nat, to: nat, m: int, b: nat)
    requires from % 60 == 0 && to % 60 == 0
    ensures var t' := RollRange(t, raw, from, to);
            if from <= b < to && HasRows(raw, m, b)
            then Key(m, b) in t' && t'[Key(m, b)] == Aggregate(raw, InMinute(m, b))
            else (Key(m, b) in t' <==> Key(m, b) in t) && (Key(m, b) in t ==> t'[Key(m, b)] == t[Key(m, b)])
  {
    var k := Key(m, b);
    forall r | r in raw
      ensures InGroup(k, from, to)(r) <==> from <= b < to && InMinute(m, b)(r)
    {
      MinuteInRange(r.at, from, to);
    }
    if from <= b < to {
      AggregateCong(raw, InGroup(k, from, to), InMinute(m, b));
    }
    assert k in Groups(raw, from, to) <==> exists r :: r in raw && InGroup(k, from, to)(r);
  }

  /** A key of the rolled table was there before, or belongs to a rolled minute. */
  lemma RolledKeys(t: Table, raw: seq<Row>, from: nat, to: nat, k: Key)
    requires from % 60 == 0 && to % 60 == 0
    requires k in RollRange(t, raw, from, to)
    ensures k in t || (from <= k.bucket < to && HasRows(raw, k.monitor, k.bucket))
  {
    assert k == Key(k.monitor, k.bucket);
    RollRangeAt(t, raw, from, to, k.monitor, k.bucket);
  }
}
