/** The hot-reload scheduler: running probe tasks against the published monitors. */
module Scheduler {
  import opened Samples
  import opened MonitorStore

  class CancellationToken {
    var cancelled: bool

    constructor ()
      ensures !cancelled
    {
      cancelled := false;
    }

    method Cancel()
      modifies this
      ensures cancelled
    {
      cancelled := true;
    }
  }

  /** A running task as the scheduler remembers it. */
  datatype Task = Task(token: CancellationToken, config: Config)

  ghost predicate UniqueIds(monitors: seq<Stored>) {
    forall i, j :: 0 <= i < j < |monitors| ==> monitors[i].id != monitors[j].id
  }

  /** The tasks that should run: one per enabled monitor, with its config. */
  function Wanted(monitors: seq<Stored>): map<nat, Config> {
    if monitors == [] then map[] else
      var rest, last := Wanted(monitors[..|monitors| - 1]), monitors[|monitors| - 1];
      if last.config.enabled then rest[last.id := last.config] else rest
  }

  /** The snapshot has this monitor, enabled, with this config. */
  ghost predicate Matches(monitors: seq<Stored>, id: nat, config: Config) {
    id in Wanted(monitors) && Wanted(monitors)[id] == config
  }

  ghost predicate IsWanted(monitors: seq<Stored>, id: nat, config: Config) {
    Stored(id, config) in monitors && config.enabled
  }

  lemma UniqueInit(monitors: seq<Stored>)
    requires UniqueIds(monitors) && monitors != []
    ensures var init, last := monitors[..|monitors| - 1], monitors[|monitors| - 1];
            UniqueIds(init) && forall m :: m in init ==> m.id != last.id
  {
    var init, last := monitors[..|monitors| - 1], monitors[|monitors| - 1];
    forall m | m in init
      ensures m.id != last.id
    {
      var i :| 0 <= i < |init| && init[i] == m;
      assert monitors[i].id != monitors[|monitors| - 1].id;
    }
  }

  /** With unique ids, exactly the enabled monitors are wanted, as they are. */
  lemma {:induction false} WantedIsEnabled(monitors: seq<Stored>, id: nat, config: Config)
    requires UniqueIds(monitors)
    ensures Matches(monitors, id, config) <==> IsWanted(monitors, id, config)
  {
    if monitors != [] {
      var init, last := monitors[..|monitors| - 1], monitors[|monitors| - 1];
      UniqueInit(monitors);
      WantedIsEnabled(init, id, config);
      assert Stored(id, config) in monitors <==> Stored(id, config) in init || Stored(id, config) == last;
    }
  }

  /** Part way through the second loop: the monitors looked at so far have the
      right tasks, the others what they had, and only a changed config replaces. */
  ghost predicate Progress(orig: map<nat, Task>, now: map<nat, Task>, done: map<nat, Config>) {
    && (forall id :: id in now <==> id in orig || id in done)
    && (forall id :: id in now ==> if id in done then now[id].config == done[id] else now[id] == orig[id])
    && (forall id :: id in orig ==> now[id] == orig[id] || now[id].config != orig[id].config)
  }

  lemma ProgressStep(orig: map<nat, Task>, now: map<nat, Task>, next: map<nat, Task>, done: map<nat, Config>, m: Stored)
    requires Progress(orig, now, done) && m.id !in done
    requires m.id in next && next[m.id].config == m.config && next == now[m.id := next[m.id]]
    requires m.id in now && now[m.id].config == m.config ==> next == now
    ensures Progress(orig, next, done[m.id := m.config])
  {
  }

  class Scheduler {
    var tasks: map<nat, Task>
    /** Every token ever handed to a task, and the monitor that task probes. */
    ghost var spawned: map<CancellationToken, Stored>
    var seen: nat

    /** The remembered tasks are exactly the ones that have not been cancelled. */
    ghost predicate Valid()
      reads this, spawned.Keys
    {
      && (forall id :: id in tasks ==>
            && tasks[id].token in spawned && !tasks[id].token.cancelled
            && spawned[tasks[id].token] == Stored(id, tasks[id].config))
      && (forall t :: t in spawned && !t.cancelled ==>
            spawned[t].id in tasks && tasks[spawned[t].id].token == t)
    }

    function Running(): map<nat, Config>
      reads this
    {
      map id | id in tasks :: tasks[id].config
    }

    constructor ()
      ensures Valid() && tasks == map[] && spawned == map[] && seen == 0
    {
      tasks, spawned, seen := map[], map[], 0;
    }

    method Spawn(m: Stored)
      requires Valid()
      requires m.id !in tasks
      modifies this`tasks, this`spawned
      ensures Valid()
      ensures m.id in tasks && fresh(tasks[m.id].token)
      ensures tasks == old(tasks)[m.id := Task(tasks[m.id].token, m.config)]
      ensures spawned == old(spawned)[tasks[m.id].token := m]
    {
      var token := new CancellationToken();
      assert token !in spawned;
      tasks := tasks[m.id := Task(token, m.config)];
      spawned := spawned[token := m];
    }

    method Stop(id: nat)
      requires Valid() && id in tasks
      modifies this`tasks, tasks[id].token
      ensures Valid()
      ensures tasks == old(tasks) - {id} && old(tasks[id].token).cancelled
    {
      tasks[id].token.Cancel();
      tasks := tasks - {id};
    }

    /** Start-up: a task for every enabled monitor. */
    method Start(monitors: seq<Stored>)
      requires Valid() && tasks == map[] && UniqueIds(monitors)
      modifies this`tasks, this`spawned
      ensures Valid() && Running() == Wanted(monitors)
      ensures Grown(old(spawned))
      ensures forall t :: t in spawned && t !in old(spawned) ==> fresh(t)
    {
      assert monitors[..0] == [];
      for k := 0 to |monitors|
        invariant Valid() && Progress(map[], tasks, Wanted(monitors[..k]))
        invariant Grown(old(spawned))
        invariant forall t :: t in spawned && t !in old(spawned) ==> fresh(t)
      {
        var m := monitors[k];
        assert monitors[..k + 1][..k] == monitors[..k];
        FreshId(monitors, k);
        if m.config.enabled {
          ghost var before := tasks;
          Spawn(m);
          ProgressStep(map[], before, tasks, Wanted(monitors[..k]), m);
        }
      }
      assert monitors[..|monitors|] == monitors;
    }

    /** Shutdown cancels every task. */
    method Shutdown()
      requires Valid()
      modifies Tokens()
      ensures forall t :: t in spawned ==> t.cancelled
    {
      var ids := tasks.Keys;
      while ids != {}
        invariant ids <= tasks.Keys
        invariant forall t :: t in spawned && !t.cancelled ==> spawned[t].id in ids && tasks[spawned[t].id].token == t
      {
        var id :| id in ids;
        tasks[id].token.Cancel();
        ids := ids - {id};
      }
    }

    ghost function Tokens(): set<CancellationToken>
      reads this
    {
      set id | id in tasks :: tasks[id].token
    }

    /** The first loop: stop the tasks of removed and disabled monitors. */
    method StopUnwanted(monitors: seq<Stored>)
      requires Valid() && UniqueIds(monitors)
      modifies this`tasks, Tokens()
      ensures Valid()
      ensures tasks == map id | id in old(tasks) && id in Wanted(monitors) :: old(tasks)[id]
      ensures forall id :: id in old(tasks) && id !in Wanted(monitors) ==> old(tasks)[id].token.cancelled
    {
      var ids := tasks.Keys;
      while ids != {}
        invariant Valid() && ids <= old(tasks).Keys
        invariant forall id :: id in tasks <==> id in ids || (id in old(tasks) && id in Wanted(monitors))
        invariant forall id :: id in tasks ==> tasks[id] == old(tasks)[id]
        invariant forall id :: id in old(tasks) && id !in tasks ==> old(tasks)[id].token.cancelled
      {
        var id :| id in ids;
        StopIfUnwanted(id, monitors);
        ids := ids - {id};
      }
    }

    /** One running task: it goes on when its monitor is still there and enabled. */
    method StopIfUnwanted(id: nat, monitors: seq<Stored>)
      requires Valid() && UniqueIds(monitors) && id in tasks
      modifies this`tasks, tasks[id].token
      ensures Valid()
      ensures tasks == if id in Wanted(monitors) then old(tasks) else old(tasks) - {id}
      ensures id !in Wanted(monitors) ==> old(tasks[id].token).cancelled
    {
      var stillWanted := exists m :: m in monitors && m.id == id && m.config.enabled;
      StillWanted(monitors, id);
      if !stillWanted {
        Stop(id);
      }
    }

    /** The second loop: start what has no task, restart what changed. */
    method StartWanted(monitors: seq<Stored>)
      requires Valid() && UniqueIds(monitors) && tasks.Keys <= Wanted(monitors).Keys
      modifies this`tasks, this`spawned, Tokens()
      ensures Valid() && Running() == Wanted(monitors)
      ensures forall id :: id in old(tasks) ==>
                if Wanted(monitors)[id] == old(tasks)[id].config then tasks[id] == old(tasks)[id]
                else old(tasks)[id].token.cancelled
      ensures Grown(old(spawned))
      ensures forall t :: t in spawned && t !in old(spawned) ==> fresh(t)
    {
      assert monitors[..0] == [];
      for k := 0 to |monitors|
        invariant Valid()
        invariant Progress(old(tasks), tasks, Wanted(monitors[..k]))
        invariant forall id :: id in old(tasks) ==> tasks[id] == old(tasks)[id] || old(tasks)[id].token.cancelled
        invariant forall id :: id in tasks ==>
                    (id in old(tasks) && tasks[id] == old(tasks)[id]) || fresh(tasks[id].token)
        invariant Grown(old(spawned))
        invariant forall t :: t in spawned && t !in old(spawned) ==> fresh(t)
      {
        var m := monitors[k];
        assert monitors[..k + 1][..k] == monitors[..k];
        FreshId(monitors, k);
        if m.config.enabled {
          ghost var before := tasks;
          StartOrKeep(m);
          ProgressStep(old(tasks), before, tasks, Wanted(monitors[..k]), m);
        }
      }
      assert monitors[..|monitors|] == monitors;
    }

    /** One enabled monitor: its task goes on if the config is the same, else a
        new one takes its place. */
    method StartOrKeep(m: Stored)
      requires Valid()
      modifies this`tasks, this`spawned, if m.id in tasks then {tasks[m.id].token} else {}
      ensures Valid()
      ensures m.id in tasks && tasks[m.id].config == m.config && tasks == old(tasks)[m.id := tasks[m.id]]
      ensures if m.id in old(tasks) && old(tasks)[m.id].config == m.config
              then tasks == old(tasks) else fresh(tasks[m.id].token)
      ensures Grown(old(spawned)) && forall t :: t in spawned && t !in old(spawned) ==> fresh(t)
      ensures m.id in old(tasks) && old(tasks)[m.id].config != m.config ==> old(tasks)[m.id].token.cancelled
      ensures forall t :: t in old(spawned) && old(t.cancelled) ==> t.cancelled
    {
      if m.id !in tasks || tasks[m.id].config != m.config {
        if m.id in tasks {
          Stop(m.id);
        }
        Spawn(m);
      }
    }

    ghost predicate Grown(before: map<CancellationToken, Stored>)
      reads this
    {
      forall t :: t in before ==> t in spawned && spawned[t] == before[t]
    }

    /** A task goes on exactly when the snapshot has its monitor, enabled and with the
        same config; otherwise its token is cancelled. */
    ghost predicate Reconciled(before: map<nat, Task>, monitors: seq<Stored>)
      reads this, set id | id in before :: before[id].token
    {
      forall id :: id in before ==>
        if Matches(monitors, id, before[id].config) then id in tasks && tasks[id] == before[id]
        else before[id].token.cancelled
    }

    /** Reconcile the running tasks with a snapshot.  Unchanged monitors keep
        their very task; every task that is dropped or replaced is cancelled. */
    method DiffAndReload(monitors: seq<Stored>)
      requires Valid() && UniqueIds(monitors)
      modifies this`tasks, this`spawned, Tokens()
      ensures Valid()
      ensures Running() == Wanted(monitors)
      ensures Reconciled(old(tasks), monitors)
      ensures Grown(old(spawned))
      ensures forall t :: t in spawned && t !in old(spawned) ==> fresh(t)
    {
      StopUnwanted(monitors);
      StartWanted(monitors);
    }
  }

  lemma StillWanted(monitors: seq<Stored>, id: nat)
    requires UniqueIds(monitors)
    ensures (exists m :: m in monitors && m.id == id && m.config.enabled) <==> id in Wanted(monitors)
  {
    if id in Wanted(monitors) {
      WantedIsEnabled(monitors, id, Wanted(monitors)[id]);
    }
    if m :| m in monitors && m.id == id && m.config.enabled {
      WantedIsEnabled(monitors, id, m.config);
    }
  }

  lemma FreshId(monitors: seq<Stored>, k: nat)
    requires UniqueIds(monitors) && k < |monitors|
    ensures UniqueIds(monitors[..k + 1]) && monitors[k].id !in Wanted(monitors[..k])
  {
    var id := monitors[k].id;
    if id in Wanted(monitors[..k]) {
      WantedIsEnabled(monitors[..k], id, Wanted(monitors[..k])[id]);
    }
  }

  /** The name is part of the compared config: a renamed monitor does not keep its task. */
  lemma RenameRestarts(monitors: seq<Stored>, id: nat, config: Config, name: string)
    requires UniqueIds(monitors) && Stored(id, config.(name := name)) in monitors && config.enabled
    ensures Matches(monitors, id, config) <==> name == config.name
  {
    WantedIsEnabled(monitors, id, config);
    WantedIsEnabled(monitors, id, config.(name := name));
  }

  // ── Store and scheduler together ────────────────────────────────────────────

  datatype Op =
    | AddOp(added: Config)
    | EnableOp(id: nat, enabled: bool)
    | UpdateOp(target: nat, config: Config)
    | RemoveOp(removed: nat)
    | DeliverOp

  lemma PublishedIdsUnique(store: Store)
    requires store.Valid()
    ensures UniqueIds(store.published)
  {
  }

  /** A wake-up of the scheduler: it takes the latest snapshot, whatever it missed,
      and does nothing when it has seen it. */
  method Deliver(store: Store, sched: Scheduler)
    requires store.Valid() && sched.Valid()
    modifies sched, sched.Tokens()
    ensures sched.Valid()
    ensures old(sched.seen) != store.version ==>
              sched.Running() == Wanted(store.published) && sched.Reconciled(old(sched.tasks), store.published)
    ensures old(sched.seen) == store.version ==> sched.tasks == old(sched.tasks) && sched.Valid()
    ensures sched.seen == store.version
    ensures sched.Grown(old(sched.spawned))
    ensures forall t :: t in sched.spawned && t !in old(sched.spawned) ==> fresh(t)
  {
    if sched.seen != store.version {
      PublishedIdsUnique(store);
      sched.DiffAndReload(store.published);
      sched.seen := store.version;
    }
  }

  /** What holds between any two steps. */
  ghost predicate InStep(store: Store, sched: Scheduler)
    reads store, store.table, sched, sched.spawned.Keys
  {
    && store.Valid() && sched.Valid() && sched.seen <= store.version
    && (sched.seen == store.version ==> sched.Running() == Wanted(store.published))
  }

  /** Start-up: the list of a freshly loaded store is scheduled, and the two are in step. */
  method Boot(store: Store) returns (sched: Scheduler)
    requires store.Valid() && store.version == 0
    ensures fresh(sched) && InStep(store, sched) && sched.seen == store.version
    ensures forall t :: t in sched.spawned ==> fresh(t)
  {
    sched := new Scheduler();
    PublishedIdsUnique(store);
    sched.Start(store.snapshot);
  }

  predicate Targets(op: Op, id: nat) {
    match op
    case EnableOp(target, _) => target == id
    case UpdateOp(target, _) => target == id
    case RemoveOp(target) => target == id
    case _ => false
  }

  predicate Untouched(ops: seq<Op>, id: nat) {
    forall i :: 0 <= i < |ops| ==> !Targets(ops[i], id)
  }

  predicate NoWakeUp(ops: seq<Op>) {
    forall i :: 0 <= i < |ops| ==> !ops[i].DeliverOp?
  }

  /** A monitor that the step does not name stays published as it is. */
  ghost predicate OthersKept(before: seq<Stored>, after: seq<Stored>, op: Op) {
    forall m :: m in before && !Targets(op, m.id) ==> m in after
  }

  lemma ReplacedKeeps(list: seq<Stored>, i: nat, m: Stored, op: Op)
    requires i < |list| && Targets(op, list[i].id)
    ensures OthersKept(list, list[i := m], op)
  {
    forall other | other in list && !Targets(op, other.id)
      ensures other in list[i := m]
    {
      var j :| 0 <= j < |list| && list[j] == other;
      assert list[i := m][j] == other;
    }
  }

  method Mutate(store: Store, op: Op)
    requires store.Valid() && !op.DeliverOp?
    modifies store, store.table
    ensures store.Valid() && old(store.given) <= store.given
    ensures store.Moved(old(store.version), old(store.published))
    ensures OthersKept(old(store.published), store.published, op)
  {
    ghost var before := store.snapshot;
    match op
    case AddOp(config) =>
      var _ := store.Add(config);
    case EnableOp(id, enabled) =>
      var r := store.SetEnabled(id, enabled);
      if r == Done(true) {
        ghost var i := IndexOfId(before, id);
        ReplacedKeeps(before, i, Stored(id, before[i].config.(enabled := enabled)), op);
      } else {
        assert r.Done? ==> !r.value;
      }
    case UpdateOp(id, config) =>
      var r := store.Update(id, config);
      if r == Done(true) {
        ReplacedKeeps(before, IndexOfId(before, id), Stored(id, config), op);
      }
    case RemoveOp(id) =>
      var _ := store.Remove(id);
  }

  /** Every snapshot that the scheduler woke up to had the monitor, enabled, with this config. */
  ghost predicate AlwaysMatched(taken: seq<seq<Stored>>, id: nat, config: Config) {
    forall i :: 0 <= i < |taken| ==> Matches(taken[i], id, config)
  }

  /** The tasks that go on are exactly those that every wake-up matched. */
  ghost predicate KeptByMatching(before: map<nat, Task>, sched: Scheduler, taken: seq<seq<Stored>>)
    reads sched, set id | id in before :: before[id].token
  {
    forall id :: id in before ==>
      if AlwaysMatched(taken, id, before[id].config) then id in sched.tasks && sched.tasks[id] == before[id]
      else before[id].token.cancelled
  }

  /** The monitors that no step names are in every snapshot as they were. */
  ghost predicate UntouchedStay(first: seq<Stored>, now: seq<Stored>, taken: seq<seq<Stored>>, ops: seq<Op>) {
    forall m :: m in first && Untouched(ops, m.id) ==>
      m in now && forall i :: 0 <= i < |taken| ==> m in taken[i]
  }

  ghost predicate AllUnique(taken: seq<seq<Stored>>) {
    forall i :: 0 <= i < |taken| ==> UniqueIds(taken[i])
  }

  lemma UntouchedStep(first: seq<Stored>, before: seq<Stored>, after: seq<Stored>,
                      taken: seq<seq<Stored>>, took: seq<seq<Stored>>, ops: seq<Op>, op: Op)
    requires UntouchedStay(first, before, taken, ops) && OthersKept(before, after, op)
    requires took == [] || took == [after]
    ensures UntouchedStay(first, after, taken + took, ops + [op])
  {
    forall m | m in first && Untouched(ops + [op], m.id)
      ensures m in after && forall i :: 0 <= i < |taken + took| ==> m in (taken + took)[i]
    {
      assert (ops + [op])[|ops|] == op;
      assert forall i :: 0 <= i < |ops| ==> ops[i] == (ops + [op])[i];
      assert Untouched(ops, m.id);
    }
  }

  lemma UntouchedMatched(first: seq<Stored>, now: seq<Stored>, taken: seq<seq<Stored>>, ops: seq<Op>, id: nat,
                         config: Config)
    requires UniqueIds(first) && AllUnique(taken) && UntouchedStay(first, now, taken, ops)
    requires Untouched(ops, id) && Matches(first, id, config)
    ensures AlwaysMatched(taken, id, config)
  {
    WantedIsEnabled(first, id, config);
    forall i | 0 <= i < |taken|
      ensures Matches(taken[i], id, config)
    {
      WantedIsEnabled(taken[i], id, config);
    }
  }

  /** What a run from `orig`, published as `first`, has left after some steps. */
  ghost predicate Traced(first: seq<Stored>, orig: map<nat, Task>, store: Store, sched: Scheduler,
                         taken: seq<seq<Stored>>, ops: seq<Op>)
    reads store, sched, set id | id in orig :: orig[id].token
  {
    && KeptByMatching(orig, sched, taken) && AllUnique(taken)
    && (NoWakeUp(ops) ==> taken == [])
    && UntouchedStay(first, store.published, taken, ops)
  }

  lemma OneMoreTaken(taken: seq<seq<Stored>>, s: seq<Stored>, id: nat, config: Config)
    ensures AlwaysMatched(taken + [s], id, config) <==> AlwaysMatched(taken, id, config) && Matches(s, id, config)
  {
    if AlwaysMatched(taken + [s], id, config) {
      assert forall i :: 0 <= i < |taken| ==> taken[i] == (taken + [s])[i];
      assert (taken + [s])[|taken|] == s;
    }
  }

  /** A wake-up handles the published snapshot, unless it was handled before. */
  method WakeUp(store: Store, sched: Scheduler, ghost orig: map<nat, Task>, ghost taken: seq<seq<Stored>>)
    returns (ghost taken': seq<seq<Stored>>)
    requires InStep(store, sched) && KeptByMatching(orig, sched, taken) && AllUnique(taken)
    requires forall id :: id in orig ==> orig[id].token in sched.spawned
    modifies sched, sched.Tokens()
    ensures InStep(store, sched) && sched.seen == store.version
    ensures sched.Grown(old(sched.spawned))
    ensures forall t :: t in sched.spawned && t !in old(sched.spawned) ==> fresh(t)
    ensures KeptByMatching(orig, sched, taken') && AllUnique(taken')
    ensures taken' == taken + if old(sched.seen) != store.version then [store.published] else []
  {
    var news := sched.seen != store.version;
    PublishedIdsUnique(store);
    Deliver(store, sched);
    taken' := taken;
    if news {
      taken' := taken + [store.published];
      forall id | id in orig
        ensures if AlwaysMatched(taken', id, orig[id].config) then id in sched.tasks && sched.tasks[id] == orig[id]
                else orig[id].token.cancelled
      {
        OneMoreTaken(taken, store.published, id, orig[id].config);
      }
    }
  }

  method Step(store: Store, sched: Scheduler, op: Op, ghost first: seq<Stored>, ghost orig: map<nat, Task>,
              ghost taken: seq<seq<Stored>>, ghost ops: seq<Op>) returns (ghost taken': seq<seq<Stored>>)
    requires InStep(store, sched) && Traced(first, orig, store, sched, taken, ops)
    requires forall id :: id in orig ==> orig[id].token in sched.spawned
    modifies store, store.table, sched, sched.Tokens()
    ensures InStep(store, sched) && Traced(first, orig, store, sched, taken', ops + [op])
    ensures old(store.given) <= store.given && sched.Grown(old(sched.spawned))
    ensures forall t :: t in sched.spawned && t !in old(sched.spawned) ==> fresh(t)
  {
    ghost var before := store.published;
    assert (ops + [op])[|ops|] == op;
    assert NoWakeUp(ops + [op]) ==> forall i :: 0 <= i < |ops| ==> ops[i] == (ops + [op])[i];
    if op.DeliverOp? {
      taken' := WakeUp(store, sched, orig, taken);
      UntouchedStep(first, before, before, taken, taken'[|taken|..], ops, op);
    } else {
      Mutate(store, op);
      taken' := taken;
      UntouchedStep(first, before, store.published, taken, [], ops, op);
      assert taken + [] == taken;
    }
  }

  /** Any sequence of mutations and wake-ups, however they are interleaved.  A task
      goes on exactly when every snapshot that was woken up to (`taken`) matched
      it, whatever was published and replaced in between. */
  method Drive(store: Store, sched: Scheduler, ops: seq<Op>) returns (ghost taken: seq<seq<Stored>>)
    requires InStep(store, sched)
    modifies store, store.table, sched, sched.spawned.Keys
    ensures InStep(store, sched)
    ensures old(store.given) <= store.given && sched.Grown(old(sched.spawned))
    ensures forall t :: t in sched.spawned && t !in old(sched.spawned) ==> fresh(t)
    ensures Traced(old(store.published), old(sched.tasks), store, sched, taken, ops)
  {
    taken := [];
    ghost var first, orig := store.published, sched.tasks;
    for i := 0 to |ops|
      invariant InStep(store, sched) && Traced(first, orig, store, sched, taken, ops[..i])
      invariant old(store.given) <= store.given && sched.Grown(old(sched.spawned))
      invariant forall t :: t in sched.spawned && t !in old(sched.spawned) ==> fresh(t)
    {
      taken := Step(store, sched, ops[i], first, orig, taken, ops[..i]);
      assert ops[..i + 1] == ops[..i] + [ops[i]];
    }
    assert ops[..|ops|] == ops;
  }

  /** A scheduler that was up to date leaves alone, through any sequence, every task
      whose monitor no step names: it is the very same task afterwards. */
  method Undisturbed(store: Store, sched: Scheduler, ops: seq<Op>)
    requires InStep(store, sched) && sched.seen == store.version
    modifies store, store.table, sched, sched.spawned.Keys
    ensures InStep(store, sched)
    ensures forall id :: id in old(sched.tasks) && Untouched(ops, id) ==>
              id in sched.tasks && sched.tasks[id] == old(sched.tasks)[id]
  {
    ghost var first, tasks, running := store.published, sched.tasks, sched.Running();
    PublishedIdsUnique(store);
    ghost var taken := Drive(store, sched, ops);
    forall id | id in tasks && Untouched(ops, id)
      ensures AlwaysMatched(taken, id, tasks[id].config)
    {
      assert running[id] == tasks[id].config;
      UntouchedMatched(first, store.published, taken, ops, id, tasks[id].config);
    }
  }

  /** Mutations that are delivered together count by their outcome: a monitor whose
      config was changed and changed back keeps its very task, and any other
      monitor's task goes on exactly when it is still published as it was. */
  method Coalesced(store: Store, sched: Scheduler, ops: seq<Op>)
    requires InStep(store, sched) && sched.seen == store.version && NoWakeUp(ops)
    modifies store, store.table, sched, sched.spawned.Keys
    ensures InStep(store, sched) && sched.seen == store.version
    ensures forall id :: id in old(sched.tasks) ==>
              if IsWanted(store.published, id, old(sched.tasks)[id].config)
              then id in sched.tasks && sched.tasks[id] == old(sched.tasks)[id]
              else old(sched.tasks)[id].token.cancelled
  {
    ghost var tasks := sched.tasks;
    ghost var none := Drive(store, sched, ops);
    ghost var taken := WakeUp(store, sched, tasks, none);
    PublishedIdsUnique(store);
    forall id | id in tasks
      ensures AlwaysMatched(taken, id, tasks[id].config) <==> IsWanted(store.published, id, tasks[id].config)
    {
      WantedIsEnabled(store.published, id, tasks[id].config);
      if taken == [] {
        assert id in sched.Running();
      } else {
        assert taken == [store.published];
        assert taken[0] == store.published;
      }
    }
  }

  /** Once the scheduler has handled the latest snapshot, the uncancelled tasks
      are exactly one per enabled monitor, running its current config. */
  lemma LiveTasksAreEnabledMonitors(store: Store, sched: Scheduler)
    requires InStep(store, sched) && sched.seen == store.version
    ensures forall t :: t in sched.spawned && !t.cancelled ==>
              sched.spawned[t] in store.snapshot && sched.spawned[t].config.enabled
    ensures forall m :: m in store.snapshot && m.config.enabled ==>
              exists t :: t in sched.spawned && !t.cancelled && sched.spawned[t] == m
    ensures forall t, u ::
              t in sched.spawned && u in sched.spawned && !t.cancelled && !u.cancelled
              && sched.spawned[t].id == sched.spawned[u].id
              ==> t == u
  {
    PublishedIdsUnique(store);
    forall t | t in sched.spawned && !t.cancelled
      ensures sched.spawned[t] in store.snapshot && sched.spawned[t].config.enabled
    {
      var id := sched.spawned[t].id;
      assert id in sched.Running();
      WantedIsEnabled(store.published, id, sched.tasks[id].config);
    }
    forall m | m in store.snapshot && m.config.enabled
      ensures exists t :: t in sched.spawned && !t.cancelled && sched.spawned[t] == m
    {
      WantedIsEnabled(store.published, m.id, m.config);
      assert m.id in sched.Running();
      var t := sched.tasks[m.id].token;
      assert t in sched.spawned && !t.cancelled && sched.spawned[t] == m;
    }
  }
}
