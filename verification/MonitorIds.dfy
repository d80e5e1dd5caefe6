/** Monitor ids and the history rows that carry them, under late writers. */
module MonitorIds {
  import opened Samples
  import opened MonitorStore
  import opened Scheduler

  /** Every row's monitor has been given its id at some time. */
  ghost predicate Known(rows: seq<Row>, given: set<nat>) {
    forall r :: r in rows && r.monitor.Some? ==> exists id :: id in given && r.monitor == Some(id as int)
  }

  ghost predicate Unseen(rows: seq<Row>, id: nat) {
    forall r :: r in rows ==> r.monitor != Some(id as int)
  }

  lemma NewIdUnseen(rows: seq<Row>, given: set<nat>, id: nat)
    requires Known(rows, given) && id !in given
    ensures Unseen(rows, id)
  {
  }

  /** A mutation, or a row that a probe writes under an id it was once started with;
      the monitor may have been deleted since. */
  datatype Step = Mutation(op: Op) | Write(row: Row)

  /** An id given out on the way, and the rows stored at that moment. */
  datatype Birth = Birth(id: nat, rows: seq<Row>)

  /** Ids given out on the way were never given before, and had no rows. */
  ghost predicate NewAndUnseen(births: seq<Birth>, before: set<nat>, given: set<nat>) {
    && (forall i :: 0 <= i < |births| ==>
          births[i].id !in before && births[i].id in given && Unseen(births[i].rows, births[i].id))
    && (forall i, j :: 0 <= i < j < |births| ==> births[i].id != births[j].id)
  }

  /** An added monitor has no history: whatever is stored was written for others. */
  method AddUnseen(store: Store, config: Config, ghost rows: seq<Row>) returns (r: Reply<nat>)
    requires store.Valid() && Known(rows, store.given)
    modifies store, store.table
    ensures store.Valid() && Known(rows, store.given)
    ensures r.Done? ==> r.value !in old(store.given) && store.given == old(store.given) + {r.value}
    ensures r.Done? ==> Unseen(rows, r.value)
    ensures !r.Done? ==> store.given == old(store.given)
  {
    r := store.Add(config);
    if r.Done? {
      NewIdUnseen(rows, old(store.given), r.value);
    }
  }

  method Other(store: Store, op: Op)
    requires store.Valid() && !op.AddOp?
    modifies store, store.table
    ensures store.Valid() && store.given == old(store.given)
  {
    match op
    case EnableOp(id, enabled) => var _ := store.SetEnabled(id, enabled);
    case UpdateOp(id, config) => var _ := store.Update(id, config);
    case RemoveOp(id) => var _ := store.Remove(id);
    case _ =>
  }

  ghost predicate Born(births: seq<Birth>, id: nat) {
    exists i :: 0 <= i < |births| && births[i].id == id
  }

  lemma OneMoreBirth(births: seq<Birth>, before: set<nat>, given: set<nat>, id: nat, rows: seq<Row>)
    requires NewAndUnseen(births, before, given) && before <= given && id !in given && Unseen(rows, id)
    ensures NewAndUnseen(births + [Birth(id, rows)], before, given + {id})
    ensures forall other :: Born(births + [Birth(id, rows)], other) <==> Born(births, other) || other == id
  {
    var more := births + [Birth(id, rows)];
    assert more[|births|].id == id;
    forall other | Born(births, other)
      ensures Born(more, other)
    {
      var i :| 0 <= i < |births| && births[i].id == other;
      assert more[i].id == other;
    }
  }

  /** Any sequence of mutations and writes, however late the writes are; `known` are the
      ids given out so far, and a write under any other id does not happen.  Every id
      given out on the way is new, and no row stored at that moment carries it: a row
      written late for a deleted monitor never appears under a later one. */
  method Live(store: Store, known: set<nat>, rows: seq<Row>, steps: seq<Step>)
    returns (stored: seq<Row>, ghost births: seq<Birth>)
    requires store.Valid() && known == store.given && Known(rows, store.given)
    modifies store, store.table
    ensures store.Valid() && Known(stored, store.given)
    ensures NewAndUnseen(births, old(store.given), store.given)
    ensures forall id :: id in store.given <==> id in old(store.given) || Born(births, id)
  {
    stored, births := rows, [];
    var ids := known;
    for k := 0 to |steps|
      invariant store.Valid() && ids == store.given && Known(stored, ids)
      invariant NewAndUnseen(births, known, ids) && known <= ids
      invariant forall id :: id in ids <==> id in known || Born(births, id)
    {
      match steps[k]
      case Mutation(op) =>
        if op.AddOp? {
          var r := AddUnseen(store, op.added, stored);
          if r.Done? {
            OneMoreBirth(births, known, ids, r.value, stored);
            births := births + [Birth(r.value, stored)];
            ids := ids + {r.value};
          }
        } else {
          Other(store, op);
        }
      case Write(row) =>
        if row.monitor.None? || exists id :: id in ids && row.monitor == Some(id as int) {
          stored := stored + [row];
        }
    }
  }
}
