/** The monitor store: database rows, in-memory snapshot and published snapshot. */
module MonitorStore {
  import opened Samples
  import opened RowCounts

  datatype Config = Config(name: string, enabled: bool, settings: string)

  datatype Stored = Stored(id: nat, config: Config)

  /** A row of `monitors`; the name is stored beside the config. */
  datatype DbRow = DbRow(id: nat, name: string, config: Config)

  /** What a mutation reports. */
  datatype Reply<T> = Done(value: T) | NameTaken | DbError

  function Loaded(rows: seq<DbRow>): (list: seq<Stored>)
    ensures |list| == |rows|
    ensures forall i :: 0 <= i < |rows| ==> list[i] == Stored(rows[i].id, rows[i].config)
  {
    seq(|rows|, i requires 0 <= i < |rows| => Stored(rows[i].id, rows[i].config))
  }

  /** Ordered by id, ids at most `last`, names unique and in step with the configs. */
  ghost predicate RowsOk(rows: seq<DbRow>, last: nat) {
    && (forall i, j :: 0 <= i < j < |rows| ==> rows[i].id < rows[j].id)
    && (forall i, j :: 0 <= i < j < |rows| ==> rows[i].name != rows[j].name)
    && (forall i :: 0 <= i < |rows| ==> rows[i].id <= last && rows[i].name == rows[i].config.name)
  }

  ghost predicate IdsGiven(rows: seq<DbRow>, given: set<nat>) {
    forall i :: 0 <= i < |rows| ==> rows[i].id in given
  }

  function IndexOfId(list: seq<Stored>, id: nat): (i: nat)
    ensures i <= |list| && (i < |list| ==> list[i].id == id)
    ensures forall j :: 0 <= j < i ==> list[j].id != id
  {
    if list == [] || list[0].id == id then 0 else 1 + IndexOfId(list[1..], id)
  }

  predicate HasName(rows: seq<DbRow>, name: string) {
    exists j :: 0 <= j < |rows| && rows[j].name == name
  }

  predicate NameAt(rows: seq<DbRow>, name: string, except: nat) {
    exists j :: 0 <= j < |rows| && rows[j].name == name && rows[j].id != except
  }

  /** The table, with the AUTOINCREMENT counter that is never set back. */
  class MonitorTable {
    var rows: seq<DbRow>
    var last: nat

    constructor ()
      ensures rows == [] && last == 0
    {
      rows, last := [], 0;
    }

    /** INSERT: refused by the UNIQUE name, or failing for reasons of its own, and then
        `broke` is set. */
    method Insert(name: string, config: Config) returns (id: Option<nat>, ghost broke: bool)
      modifies this
      ensures id.None? ==> rows == old(rows) && last == old(last)
      ensures id.None? <==> broke || HasName(old(rows), name)
      ensures id.Some? ==> id.value == old(last) + 1 == last && rows == old(rows) + [DbRow(last, name, config)]
    {
      var failed: bool := *;
      broke := failed;
      if failed || HasName(rows, name) {
        return None, broke;
      }
      last := last + 1;
      rows := rows + [DbRow(last, name, config)];
      id := Some(last);
    }

    /** UPDATE ... WHERE id = ?: refused when another row has the name. */
    method Update(i: nat, name: string, config: Config) returns (ok: bool)
      requires i < |rows|
      modifies this`rows
      ensures ok ==> !NameAt(old(rows), name, old(rows)[i].id)
      ensures ok ==> rows == old(rows)[i := DbRow(old(rows)[i].id, name, config)]
      ensures !ok ==> rows == old(rows)
    {
      ok := *;
      if NameAt(rows, name, rows[i].id) {
        ok := false;
      }
      if ok {
        rows := rows[i := DbRow(rows[i].id, name, config)];
      }
    }

    method Delete(id: nat) returns (ok: bool)
      modifies this`rows
      ensures rows == if ok then Filter(old(rows), NotRow(id)) else old(rows)
    {
      ok := *;
      if ok {
        rows := Filter(rows, NotRow(id));
      }
    }
  }

  function NotRow(id: nat): DbRow -> bool { (r: DbRow) => r.id != id }

  function NotStored(id: nat): Stored -> bool { (m: Stored) => m.id != id }

  /** A DELETE by id takes exactly the row of that id, and the snapshot loses exactly
      that monitor. */
  lemma RemovalIsExact(rows: seq<DbRow>, list: seq<Stored>, id: nat)
    ensures KeepsExactly(rows, (r: DbRow) => r.id != id, Filter(rows, NotRow(id)))
    ensures KeepsExactly(list, (m: Stored) => m.id != id, Filter(list, NotStored(id)))
  {
    FilterKeepsAs(rows, NotRow(id), (r: DbRow) => r.id != id);
    FilterKeepsAs(list, NotStored(id), (m: Stored) => m.id != id);
  }

  lemma {:induction false} LoadedWithout(rows: seq<DbRow>, id: nat)
    ensures Loaded(Filter(rows, NotRow(id))) == Filter(Loaded(rows), NotStored(id))
  {
    if rows != [] {
      var init, last := rows[..|rows| - 1], rows[|rows| - 1];
      LoadedWithout(init, id);
      assert Loaded(rows) == Loaded(init) + [Stored(last.id, last.config)];
      FilterAppend(Loaded(init), Stored(last.id, last.config), NotStored(id));
      var kept := Filter(init, NotRow(id));
      assert Loaded(kept + [last]) == Loaded(kept) + [Stored(last.id, last.config)];
    }
  }

  lemma {:induction false} RowsOkWithout(rows: seq<DbRow>, id: nat, last: nat)
    requires RowsOk(rows, last)
    ensures RowsOk(Filter(rows, NotRow(id)), last)
  {
    if rows != [] {
      var init, final := rows[..|rows| - 1], rows[|rows| - 1];
      RowsOkWithout(init, id, last);
      var kept := Filter(init, NotRow(id));
      forall i | 0 <= i < |kept|
        ensures kept[i].id < final.id && kept[i].name != final.name
      {
        assert kept[i] in init;
      }
      assert RowsOk(kept + [final], last);
    }
  }

  /** Deleting a row keeps the table sound, and deletes the monitor from the list. */
  lemma WithoutRow(rows: seq<DbRow>, id: nat, last: nat, given: set<nat>)
    requires RowsOk(rows, last) && IdsGiven(rows, given)
    ensures var kept := Filter(rows, NotRow(id));
            RowsOk(kept, last) && IdsGiven(kept, given) && Loaded(kept) == Filter(Loaded(rows), NotStored(id))
  {
    var kept := Filter(rows, NotRow(id));
    forall i | 0 <= i < |kept|
      ensures kept[i].id in given
    {
      assert kept[i] in rows;
    }
    LoadedWithout(rows, id);
    RowsOkWithout(rows, id, last);
  }

  /** Rows, snapshot and published snapshot are one id-ordered list with unique names,
      and every id ever given out is behind the counter. */
  ghost predicate StoreOk(rows: seq<DbRow>, last: nat, snapshot: seq<Stored>, published: seq<Stored>, given: set<nat>) {
    && RowsOk(rows, last)
    && snapshot == Loaded(rows)
    && published == snapshot
    && IdsGiven(rows, given)
    && (forall id :: id in given ==> 0 < id <= last)
  }

  lemma StoreWithout(rows: seq<DbRow>, id: nat, last: nat, snapshot: seq<Stored>, given: set<nat>)
    requires StoreOk(rows, last, snapshot, snapshot, given)
    ensures var left := Filter(snapshot, NotStored(id)); StoreOk(Filter(rows, NotRow(id)), last, left, left, given)
  {
    WithoutRow(rows, id, last, given);
  }

  /** The store.  `published` is the value of the watch channel, `version` its
      version, and `given` every id ever given out. */
  class Store {
    const table: MonitorTable
    var snapshot: seq<Stored>
    var published: seq<Stored>
    var version: nat
    ghost var given: set<nat>

    /** Rows, snapshot and published snapshot are one id-ordered list with unique
        names, and every id ever given out is behind the counter. */
    ghost predicate Valid()
      reads this, table
    {
      StoreOk(table.rows, table.last, snapshot, published, given)
    }

    /** `load` reads the rows back in id order and publishes them. */
    constructor Load(table: MonitorTable, ghost given: set<nat>)
      requires RowsOk(table.rows, table.last)
      requires IdsGiven(table.rows, given)
      requires forall id :: id in given ==> 0 < id <= table.last
      ensures this.table == table && this.given == given && Valid()
      ensures snapshot == Loaded(table.rows) && version == 0
    {
      this.table := table;
      snapshot := Loaded(table.rows);
      published := Loaded(table.rows);
      version := 0;
      this.given := given;
    }

    method Notify()
      modifies this`published, this`version
      ensures published == snapshot && version == old(version) + 1
    {
      published := snapshot;
      version := version + 1;
    }

    method Add(config: Config) returns (r: Reply<nat>)
      requires Valid()
      modifies this, table
      ensures Valid()
      ensures r.NameTaken? <==> exists m :: m in old(snapshot) && m.config.name == config.name
      ensures r.Done? ==>
                r.value !in old(given) && given == old(given) + {r.value}
                && snapshot == old(snapshot) + [Stored(r.value, config)] && version == old(version) + 1
      ensures !r.Done? ==> Same(old(snapshot), old(version), old(given))
      ensures Moved(old(version), old(published))
    {
      if exists m :: m in snapshot && m.config.name == config.name {
        return NameTaken;
      }
      forall j | 0 <= j < |table.rows|
        ensures table.rows[j].name != config.name
      {
        assert snapshot[j] in snapshot;
      }
      var id, broke := table.Insert(config.name, config);
      if id.None? {
        return DbError;
      }
      snapshot := snapshot + [Stored(id.value, config)];
      given := given + {id.value};
      Notify();
      return Done(id.value);
    }

    method SetEnabled(id: nat, enabled: bool) returns (r: Reply<bool>)
      requires Valid()
      modifies this, table
      ensures Valid() && given == old(given) && !r.NameTaken?
      ensures var i := IndexOfId(old(snapshot), id);
              && (i == |old(snapshot)| ==> r == Done(false) && Same(old(snapshot), old(version), old(given)))
              && (i < |old(snapshot)| && old(snapshot)[i].config.enabled == enabled ==>
                    r == Done(true) && Same(old(snapshot), old(version), old(given)))
              && (r == Done(true) ==>
                    i < |old(snapshot)|
                    && snapshot == old(snapshot)[i := Stored(id, old(snapshot)[i].config.(enabled := enabled))])
              && (i < |old(snapshot)| ==> r != Done(false))
      ensures r.DbError? ==> Same(old(snapshot), old(version), old(given))
      ensures Moved(old(version), old(published))
    {
      var pos := IndexOfId(snapshot, id);
      if pos == |snapshot| {
        return Done(false);
      }
      if snapshot[pos].config.enabled == enabled {
        return Done(true);
      }
      var config := snapshot[pos].config.(enabled := enabled);
      var ok := table.Update(pos, config.name, config);
      if !ok {
        return DbError;
      }
      snapshot := snapshot[pos := Stored(id, config)];
      Notify();
      return Done(true);
    }

    method Update(id: nat, config: Config) returns (r: Reply<bool>)
      requires Valid()
      modifies this, table
      ensures Valid() && given == old(given) && !r.NameTaken?
      ensures var i := IndexOfId(old(snapshot), id);
              && (i == |old(snapshot)| <==> r == Done(false))
              && (r == Done(true) ==> i < |old(snapshot)| && snapshot == old(snapshot)[i := Stored(id, config)])
      ensures r != Done(true) ==> Same(old(snapshot), old(version), old(given))
      ensures Moved(old(version), old(published))
    {
      var pos := IndexOfId(snapshot, id);
      if pos == |snapshot| {
        return Done(false);
      }
      var ok := table.Update(pos, config.name, config);
      if !ok {
        return DbError;
      }
      snapshot := snapshot[pos := Stored(id, config)];
      Notify();
      return Done(true);
    }

    method Remove(id: nat) returns (r: Reply<bool>)
      requires Valid()
      modifies this, table
      ensures Valid() && given == old(given) && !r.NameTaken?
      ensures IndexOfId(old(snapshot), id) == |old(snapshot)| <==> r == Done(false)
      ensures r == Done(true) ==> snapshot == Filter(old(snapshot), NotStored(id))
      ensures r == Done(true) ==> forall m :: m in snapshot <==> m in old(snapshot) && m.id != id
      ensures r != Done(true) ==> Same(old(snapshot), old(version), old(given))
      ensures Moved(old(version), old(published))
    {
      if IndexOfId(snapshot, id) == |snapshot| {
        return Done(false);
      }
      var ok := DropRow(id);
      return if ok then Done(true) else DbError;
    }

    /** The statement and what follows it: the row and the monitor go, or nothing. */
    method DropRow(id: nat) returns (ok: bool)
      requires Valid()
      modifies this`snapshot, this`published, this`version, table
      ensures Valid()
      ensures ok ==> snapshot == Filter(old(snapshot), NotStored(id)) && version == old(version) + 1
      ensures !ok ==> Same(old(snapshot), old(version), old(given))
    {
      ghost var before := table.rows;
      ok := table.Delete(id);
      if ok {
        StoreWithout(before, id, table.last, snapshot, given);
        snapshot := Filter(snapshot, NotStored(id));
        Notify();
      }
    }

    /** A new value on the channel is a new version. */
    ghost predicate Moved(version': nat, published': seq<Stored>)
      reads this
    {
      version > version' || (version == version' && published == published')
    }

    /** Nothing that a reader of the store can see has changed. */
    ghost predicate Same(snapshot': seq<Stored>, version': nat, given': set<nat>)
      reads this
    {
      snapshot == snapshot' && published == snapshot' && version == version' && given == given'
    }
  }

  // ── The one-time import ─────────────────────────────────────────────────────

  /** The rows that inserting these configs in turn appends to an empty table. */
  function Imported(file: seq<Config>, last: nat): (rows: seq<DbRow>)
    ensures |rows| == |file|
    ensures forall i :: 0 <= i < |file| ==> rows[i] == DbRow(last + 1 + i, file[i].name, file[i])
  {
    seq(|file|, i requires 0 <= i < |file| => DbRow(last + 1 + i, file[i].name, file[i]))
  }

  ghost predicate DistinctNames(file: seq<Config>) {
    forall i, j :: 0 <= i < j < |file| ==> file[i].name != file[j].name
  }

  /** How many monitors an import inserts in which no statement fails by itself. */
  function Accepted(file: seq<Config>): (n: nat)
    ensures n <= |file|
  {
    if file == [] then 0 else
      var init, last := file[..|file| - 1], file[|file| - 1];
      if Accepted(init) == |init| && forall m :: m in init ==> m.name != last.name then |file| else Accepted(init)
  }

  /** They are the longest part of the file, from its start, without a repeated name. */
  lemma {:induction false} AcceptedIsLongest(file: seq<Config>, k: nat)
    requires k <= |file|
    ensures DistinctNames(file[..k]) <==> k <= Accepted(file)
    ensures Accepted(file) == |file| <==> DistinctNames(file)
  {
    if file == [] {
      assert file[..k] == [];
    } else {
      var init, last := file[..|file| - 1], file[|file| - 1];
      AcceptedIsLongest(init, if k < |file| then k else |init|);
      AcceptedIsLongest(init, |init|);
      assert init[..|init|] == init && file[..|file|] == file;
      assert DistinctNames(file) <==> DistinctNames(init) && forall m :: m in init ==> m.name != last.name by {
        DistinctMore(init, last);
        assert init + [last] == file;
      }
      assert k < |file| ==> file[..k] == init[..k];
    }
  }

  lemma DistinctMore(init: seq<Config>, last: Config)
    ensures DistinctNames(init + [last]) <==> DistinctNames(init) && forall m :: m in init ==> m.name != last.name
  {
    var file := init + [last];
    if DistinctNames(file) {
      forall m | m in init
        ensures m.name != last.name
      {
        var i :| 0 <= i < |init| && init[i] == m;
        assert file[i].name != file[|init|].name;
      }
      assert forall i :: 0 <= i < |init| ==> file[i] == init[i];
    }
  }

  /** One INSERT after the other, until one is refused or `broke`. */
  method ImportLegacy(table: MonitorTable, file: seq<Config>) returns (ok: bool, ghost done: nat, ghost broke: bool)
    requires table.rows == []
    modifies table
    ensures done <= Accepted(file) && (ok <==> done == |file|)
    ensures !broke ==> done == Accepted(file)
    ensures broke ==> !ok
    ensures table.rows == Imported(file[..done], old(table.last)) && table.last == old(table.last) + done
  {
    done, broke := 0, false;
    for i := 0 to |file|
      invariant table.rows == Imported(file[..i], old(table.last)) && table.last == old(table.last) + i
      invariant done == i <= Accepted(file) && !broke
    {
      var id;
      id, broke := table.Insert(file[i].name, file[i]);
      NextAccepted(file, i, old(table.last));
      if id.None? {
        return false, i, broke;
      }
      done := i + 1;
    }
    ok := true;
  }

  /** The table of the first `i` monitors has the next one's name exactly when the
      import is refused there. */
  lemma NextAccepted(file: seq<Config>, i: nat, last: nat)
    requires i < |file| && i <= Accepted(file)
    ensures HasName(Imported(file[..i], last), file[i].name) <==> i == Accepted(file)
  {
    var rows := Imported(file[..i], last);
    AcceptedIsLongest(file, i);
    AcceptedIsLongest(file, i + 1);
    assert file[..i + 1] == file[..i] + [file[i]];
    DistinctMore(file[..i], file[i]);
    assert forall j :: 0 <= j < i ==> rows[j].name == file[..i][j].name;
    if m :| m in file[..i] && m.name == file[i].name {
      var j :| 0 <= j < i && file[..i][j] == m;
      assert rows[j].name == file[i].name;
    }
  }

  /** The table after a start in which no statement fails by itself. */
  function RowsAfterStart(rows: seq<DbRow>, last: nat, file: seq<Config>): seq<DbRow> {
    if rows != [] then rows else Imported(file[..Accepted(file)], last)
  }

  /** An import is never resumed: a second start leaves what the first imported, which
      is the whole file if and only if no name repeats. */
  lemma ImportNotResumed(file: seq<Config>, last: nat)
    ensures var once := RowsAfterStart([], last, file);
            && RowsAfterStart(once, last + |once|, file) == once
            && (|once| == |file| <==> DistinctNames(file))
  {
    AcceptedIsLongest(file, |file|);
  }

  /** A file with one name twice: the second monitor is not imported, not at the first
      start and not at the next. */
  lemma RepeatedName(a: Config, b: Config, last: nat)
    requires a.name == b.name
    ensures var once := RowsAfterStart([], last, [a, b]);
            once == [DbRow(last + 1, a.name, a)] && RowsAfterStart(once, last + 1, [a, b]) == once
  {
    var file := [a, b];
    assert file[..1] == [a] && file[..2] == file;
    assert DistinctNames([a]) && file[0].name == file[1].name;
    AcceptedIsLongest(file, 1);
    AcceptedIsLongest(file, 2);
  }

  // ── Tagging history rows ────────────────────────────────────────────────────

  /** A history row: the name it was written under, and its monitor's id once known. */
  datatype Past = Past(name: string, monitor: Option<nat>)

  /** The first monitor of that name. */
  function NameId(list: seq<Stored>, name: string): Option<nat> {
    if list == [] then None else
      var init, last := list[..|list| - 1], list[|list| - 1];
      if NameId(init, name).Some? then NameId(init, name)
      else if last.config.name == name then Some(last.id) else None
  }

  function Tag(row: Past, list: seq<Stored>): Past {
    if row.monitor.Some? then row else row.(monitor := NameId(list, row.name))
  }

  /** Every row that has no monitor yet gets that of its name, if there is one. */
  function TagAll(rows: seq<Past>, list: seq<Stored>): (tagged: seq<Past>)
    ensures |tagged| == |rows| && forall i :: 0 <= i < |rows| ==> tagged[i] == Tag(rows[i], list)
  {
    seq(|rows|, i requires 0 <= i < |rows| => Tag(rows[i], list))
  }

  /** With unique names a row is tagged with an id exactly when that monitor has its
      name; a row that was tagged keeps its tag. */
  lemma {:induction false} TagMeans(list: seq<Stored>, name: string, id: nat)
    requires forall i, j :: 0 <= i < j < |list| ==> list[i].config.name != list[j].config.name
    ensures NameId(list, name) == Some(id) <==> exists m :: m in list && m.config.name == name && m.id == id
  {
    if list != [] {
      var init, last := list[..|list| - 1], list[|list| - 1];
      TagMeans(init, name, id);
      assert list == init + [last];
      if NameId(init, name).Some? {
        NameIdFound(init, name);
      }
    }
  }

  /** Tagging one row, in plain terms. */
  lemma TagOfRow(row: Past, list: seq<Stored>)
    requires forall i, j :: 0 <= i < j < |list| ==> list[i].config.name != list[j].config.name
    ensures Tag(row, list).name == row.name
    ensures row.monitor.Some? ==> Tag(row, list) == row
    ensures row.monitor.None? ==> forall id :: Tag(row, list).monitor == Some(id) <==>
                                    exists m :: m in list && m.config.name == row.name && m.id == id
  {
    forall id: nat
      ensures NameId(list, row.name) == Some(id) <==> exists m :: m in list && m.config.name == row.name && m.id == id
    {
      TagMeans(list, row.name, id);
    }
  }

  lemma {:induction false} NameIdFound(list: seq<Stored>, name: string)
    ensures NameId(list, name).Some? ==>
              exists i :: 0 <= i < |list| && list[i].config.name == name && list[i].id == NameId(list, name).value
  {
    if list != [] {
      var init, last := list[..|list| - 1], list[|list| - 1];
      NameIdFound(init, name);
      if NameId(init, name).Some? {
        var i :| 0 <= i < |init| && init[i].config.name == name && init[i].id == NameId(init, name).value;
        assert list[i] == init[i];
      }
    }
  }

  lemma {:induction false} NameIdStays(list: seq<Stored>, k: nat, name: string)
    requires k <= |list| && NameId(list[..k], name).Some?
    ensures NameId(list, name) == NameId(list[..k], name)
  {
    if k < |list| {
      assert list[..|list| - 1][..k] == list[..k];
      NameIdStays(list[..|list| - 1], k, name);
    } else {
      assert list[..k] == list;
    }
  }

  /** Tagging that stopped part way is completed by the next: the result is that of
      tagging once, and tagging again changes nothing. */
  lemma TaggingResumes(rows: seq<Past>, list: seq<Stored>, k: nat)
    requires k <= |list|
    ensures TagAll(TagAll(rows, list[..k]), list) == TagAll(rows, list)
  {
    forall i | 0 <= i < |rows|
      ensures Tag(Tag(rows[i], list[..k]), list) == Tag(rows[i], list)
    {
      if rows[i].monitor.None? && NameId(list[..k], rows[i].name).Some? {
        NameIdStays(list, k, rows[i].name);
      }
    }
  }

  lemma TagNext(rows: seq<Past>, list: seq<Stored>, k: nat)
    requires k < |list|
    ensures TagAll(TagAll(rows, list[..k]), [list[k]]) == TagAll(rows, list[..k + 1])
  {
    assert list[..k + 1][..k] == list[..k] && [list[k]][..0] == [];
    forall i | 0 <= i < |rows|
      ensures Tag(Tag(rows[i], list[..k]), [list[k]]) == Tag(rows[i], list[..k + 1])
    {
      assert NameId([list[k]], rows[i].name) == if list[k].config.name == rows[i].name then Some(list[k].id) else None;
    }
  }

  /** The rows were tagged by a part of the list. */
  ghost predicate TaggedPartly(before: seq<Past>, rows: seq<Past>, list: seq<Stored>) {
    exists k: nat :: k <= |list| && rows == TagAll(before, list[..k])
  }

  /** The two history tables. */
  class History {
    var results: seq<Past>
    var runs: seq<Past>

    constructor (results: seq<Past>, runs: seq<Past>)
      ensures this.results == results && this.runs == runs
    {
      this.results, this.runs := results, runs;
    }

    /** Two UPDATEs, of which either may fail. */
    method BackfillMonitorId(m: Stored) returns (ok: bool)
      modifies this
      ensures ok ==> results == TagAll(old(results), [m]) && runs == TagAll(old(runs), [m])
      ensures !ok ==> (results == old(results) || results == TagAll(old(results), [m])) && runs == old(runs)
    {
      ok := *;
      if !ok {
        return;
      }
      results := TagAll(results, [m]);
      ok := *;
      if ok {
        runs := TagAll(runs, [m]);
      }
    }

    /** Every stored monitor in turn, until one fails. */
    method Backfill(list: seq<Stored>) returns (ok: bool)
      modifies this
      ensures ok ==> results == TagAll(old(results), list) && runs == TagAll(old(runs), list)
      ensures TaggedPartly(old(results), results, list) && TaggedPartly(old(runs), runs, list)
    {
      for k := 0 to |list|
        invariant results == TagAll(old(results), list[..k]) && runs == TagAll(old(runs), list[..k])
      {
        TagNext(old(results), list, k);
        TagNext(old(runs), list, k);
        ok := BackfillMonitorId(list[k]);
        if !ok {
          return;
        }
      }
      assert list[..|list|] == list;
      ok := true;
    }
  }

  // ── Start-up ────────────────────────────────────────────────────────────────

  /** The table after a start, whatever failed on the way. */
  ghost predicate Started(rows: seq<DbRow>, last: nat, file: seq<Config>, after: seq<DbRow>, complete: bool) {
    if rows != [] then after == rows
    else exists done: nat ::
      done <= Accepted(file) && after == Imported(file[..done], last) && (complete ==> done == |file|)
  }

  /** The first part of `load`: an empty table takes the legacy monitors. */
  method ImportIfEmpty(table: MonitorTable, file: seq<Config>) returns (ok: bool, ghost broke: bool)
    requires RowsOk(table.rows, table.last)
    modifies table
    ensures Started(old(table.rows), old(table.last), file, table.rows, ok)
    ensures RowsOk(table.rows, table.last) && table.last >= old(table.last)
    ensures old(table.rows) != [] ==> table.last == old(table.last)
    ensures forall r :: r in table.rows ==> r in old(table.rows) || r.id > old(table.last)
    ensures broke ==> !ok
    ensures !broke ==>
              && table.rows == RowsAfterStart(old(table.rows), old(table.last), file)
              && (ok <==> old(table.rows) != [] || DistinctNames(file))
  {
    ok, broke := true, false;
    if table.rows == [] {
      ghost var done;
      AcceptedIsLongest(file, |file|);
      ok, done, broke := ImportLegacy(table, file);
      assert file[..|file|] == file;
      AcceptedIsLongest(file, done);
    }
  }

  /** `load`: after the import the rows are read back, the history is tagged and the
      list is published.  An error on the way, which sets `broke` unless it is a
      repeated name, starts nothing. */
  method LoadOrImport(table: MonitorTable, history: History, file: seq<Config>, ghost given: set<nat>)
    returns (store: Option<Store>, ghost broke: bool)
    requires RowsOk(table.rows, table.last) && IdsGiven(table.rows, given)
    requires forall id :: id in given ==> 0 < id <= table.last
    modifies table, history
    ensures Started(old(table.rows), old(table.last), file, table.rows, store.Some?)
    ensures old(table.rows) != [] ==> table.last == old(table.last)
    ensures !broke ==>
              && table.rows == RowsAfterStart(old(table.rows), old(table.last), file)
              && (store.Some? <==> old(table.rows) != [] || DistinctNames(file))
    ensures RowsOk(table.rows, table.last) && table.last >= old(table.last)
    ensures store.Some? ==>
              var s := store.value;
              && fresh(s) && s.table == table && s.Valid() && s.snapshot == Loaded(table.rows) && s.version == 0
              && given <= s.given && forall id :: id in s.given ==> id in given || id > old(table.last)
    ensures store.Some? ==>
              && history.results == TagAll(old(history.results), Loaded(table.rows))
              && history.runs == TagAll(old(history.runs), Loaded(table.rows))
    ensures TaggedPartly(old(history.results), history.results, Loaded(table.rows))
    ensures TaggedPartly(old(history.runs), history.runs, Loaded(table.rows))
  {
    store, broke := None, true;
    var failed: bool := *;
    if failed {
      NothingStarted(table.rows, table.last, file);
      Untagged(history.results, Loaded(table.rows));
      Untagged(history.runs, Loaded(table.rows));
      return;
    }
    var ok;
    ok, broke := ImportIfEmpty(table, file);
    Untagged(history.results, Loaded(table.rows));
    Untagged(history.runs, Loaded(table.rows));
    if !ok {
      return;
    }
    failed := *;
    if failed {
      broke := true;
      return;
    }
    ok := history.Backfill(Loaded(table.rows));
    if !ok {
      broke := true;
      return;
    }
    var s := new Store.Load(table, given + set r | r in table.rows :: r.id);
    store := Some(s);
  }

  lemma NothingStarted(rows: seq<DbRow>, last: nat, file: seq<Config>)
    ensures Started(rows, last, file, rows, false)
  {
    assert rows == [] ==> rows == Imported(file[..0], last);
  }

  lemma Untagged(rows: seq<Past>, list: seq<Stored>)
    ensures TaggedPartly(rows, rows, list)
  {
    assert list[..0] == [] && rows == TagAll(rows, list[..0]);
  }

  /** Two starts on an empty table.  When no statement fails by itself, the first comes
      up exactly when no name repeats; otherwise the second does, with the monitors
      before the repeated name, and the rest of the file is never imported. */
  method StartAgain(table: MonitorTable, history: History, file: seq<Config>, ghost given: set<nat>)
    returns (first: Option<Store>, ghost between: seq<DbRow>, second: Option<Store>, ghost broke: bool)
    requires table.rows == [] && forall id :: id in given ==> 0 < id <= table.last
    modifies table, history
    ensures Started([], old(table.last), file, between, first.Some?)
    ensures between != [] ==> table.rows == between && (second.Some? ==> second.value.snapshot == Loaded(between))
    ensures !broke ==> between == table.rows == RowsAfterStart([], old(table.last), file)
    ensures !broke ==> (first.Some? <==> DistinctNames(file)) && (second.Some? <==> !DistinctNames(file))
  {
    second := None;
    ghost var last := table.last;
    first, broke := LoadOrImport(table, history, file, given);
    between := table.rows;
    AcceptedIsLongest(file, |file|);
    if first.None? {
      ghost var ids, again := set r | r in table.rows :: r.id, false;
      forall id | id in ids
        ensures 0 < id <= table.last
      {
        var i :| 0 <= i < |between| && between[i].id == id;
        assert between[i].id == last + 1 + i;
      }
      AcceptedSome(file);
      second, again := LoadOrImport(table, history, file, given + ids);
      broke := broke || again;
    }
  }

  lemma {:induction false} AcceptedSome(file: seq<Config>)
    ensures file != [] ==> Accepted(file) > 0
  {
    if |file| > 1 {
      AcceptedSome(file[..|file| - 1]);
    }
  }
}
