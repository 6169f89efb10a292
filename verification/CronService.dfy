/** The schedule service: the nested map, the cron entries and the gauge, updated in place. */
module CronService {
  import opened Base
  import opened CronRegistry

  type Nested = map<string, map<string, map<string, int>>>

  predicate Has(m: Nested, k: Key) {
    k.schedule in m && k.action in m[k.schedule] && k.resource in m[k.schedule][k.action]
  }

  function IdAt(m: Nested, k: Key): int
    requires Has(m, k)
  {
    m[k.schedule][k.action][k.resource]
  }

  /** The nested map holds exactly the keys and ids of the flat one. */
  ghost predicate Refines(m: Nested, ids: map<Key, int>) {
    forall k {:trigger Has(m, k)} :: (k in ids <==> Has(m, k)) && (Has(m, k) ==> ids[k] == IdAt(m, k))
  }

  function ActionsOf(m: Nested, schedule: string): map<string, map<string, int>> {
    if schedule in m then m[schedule] else map[]
  }

  function ResourcesOf(m: Nested, schedule: string, action: string): map<string, int> {
    if action in ActionsOf(m, schedule) then ActionsOf(m, schedule)[action] else map[]
  }

  /** Stores the id under its key, creating the inner maps that are missing. */
  function Put(m: Nested, k: Key, id: int): Nested {
    m[k.schedule := ActionsOf(m, k.schedule)[k.action := ResourcesOf(m, k.schedule, k.action)[k.resource := id]]]
  }

  function Drop(m: Nested, k: Key): Nested
    requires Has(m, k)
  {
    m[k.schedule := m[k.schedule][k.action := m[k.schedule][k.action] - {k.resource}]]
  }

  lemma PutRefines(m: Nested, ids: map<Key, int>, k: Key, id: int)
    requires Refines(m, ids)
    ensures Refines(Put(m, k, id), ids[k := id])
  {
    var m' := Put(m, k, id);
    forall l ensures Has(m', l) <==> Has(m, l) || l == k {}
    forall l | Has(m', l) ensures IdAt(m', l) == if l == k then id else IdAt(m, l) {}
  }

  lemma DropRefines(m: Nested, ids: map<Key, int>, k: Key)
    requires Refines(m, ids) && Has(m, k)
    ensures Refines(Drop(m, k), ids - {k})
  {
    var m' := Drop(m, k);
    forall l ensures Has(m', l) <==> Has(m, l) && l != k {}
    forall l | Has(m', l) ensures IdAt(m', l) == IdAt(m, l) {}
  }

  class ScheduleService {
    const valid: string -> bool
    var m: Nested
    var entries: map<int, Entry>
    var next: int
    var gauge: Gauge
    ghost var ids: map<Key, int>

    /** The service as a value. */
    ghost function Registry(): Registry
      reads this
    {
      CronRegistry.Registry.Registry(ids, entries, next, gauge)
    }

    ghost predicate Valid()
      reads this
    {
      Refines(m, ids)
    }

    constructor (valid: string -> bool)
      ensures this.valid == valid
      ensures Valid() && Registry() == Empty
    {
      this.valid := valid;
      m, entries, next, gauge, ids := map[], map[], 1, map[], map[];
    }

    /** Whether the cron library still holds the entry. */
    predicate Live(id: int)
      reads this
    {
      id in entries
    }

    method Add(k: Key, spec: string, job: Job) returns (id: Option<int>)
      requires Valid()
      modifies this
      ensures Valid()
      ensures id.Some? <==> valid(spec)
      ensures id.Some? ==> id.value == old(next) && Registry() == AddKey(old(Registry()), k, spec, job)
      ensures id.None? ==> Registry() == old(Registry())
    {
      if !valid(spec) {
        return None;
      }
      id := Some(next);
      PutRefines(m, ids, k, next);
      m, ids := Put(m, k, next), ids[k := next];
      entries := entries[next := Entry(spec, job)];
      next := next + 1;
      gauge := Bump(gauge, k.schedule, k.action, 1);
    }

    method Remove(k: Key)
      requires Valid()
      modifies this
      ensures Valid()
      ensures Registry() == RemoveKey(old(Registry()), k)
      ensures m.Keys == old(m).Keys
      ensures forall s :: s in m ==> m[s].Keys == old(m)[s].Keys
    {
      assert k in ids <==> Has(m, k);
      if k.schedule !in m {
        return;
      }
      if k.action !in m[k.schedule] {
        return;
      }
      if k.resource !in m[k.schedule][k.action] {
        return;
      }
      entries := entries - {m[k.schedule][k.action][k.resource]};
      DropRefines(m, ids, k);
      m, ids := Drop(m, k), ids - {k};
      gauge := Bump(gauge, k.schedule, k.action, -1);
    }

    method UpdateCronSpec(k: Key, spec: string) returns (updated: bool)
      requires Valid()
      modifies this
      ensures Valid()
      ensures updated <==> Refreshable(old(Registry()), k) && valid(spec)
      ensures Registry() == if updated then RefreshKey(old(Registry()), k, spec) else old(Registry())
    {
      assert k in ids <==> Has(m, k);
      if k.schedule !in m || k.action !in m[k.schedule] || k.resource !in m[k.schedule][k.action] {
        return false;
      }
      var id := m[k.schedule][k.action][k.resource];
      if !Live(id) {
        return false;
      }
      if !valid(spec) {
        return false;
      }
      entries := entries[next := Entry(spec, entries[id].job)];
      PutRefines(m, ids, k, next);
      m, ids := Put(m, k, next), ids[k := next];
      next := next + 1;
      entries := entries - {id};
      return true;
    }

    static method CopyResources(resources: map<string, int>) returns (copy: map<string, int>)
      ensures copy == resources
    {
      copy := map[];
      var todo := resources.Keys;
      while todo != {}
        invariant todo <= resources.Keys
        invariant copy == map r | r in resources && r !in todo :: resources[r]
        decreases todo
      {
        var r :| r in todo;
        copy := copy[r := resources[r]];
        todo := todo - {r};
      }
    }

    /** A copy of the schedule's part of the map. */
    method GetActions(schedule: string) returns (actions: map<string, map<string, int>>)
      requires Valid()
      ensures forall a, r :: a in actions && r in actions[a] <==> Key(schedule, a, r) in ids
      ensures forall a, r :: a in actions && r in actions[a] ==> actions[a][r] == ids[Key(schedule, a, r)]
    {
      actions := map[];
      assert forall a, r :: Key(schedule, a, r) in ids <==> Has(m, Key(schedule, a, r));
      if schedule !in m {
        return;
      }
      var todo := m[schedule].Keys;
      while todo != {}
        invariant todo <= m[schedule].Keys
        invariant actions == map a | a in m[schedule] && a !in todo :: m[schedule][a]
        decreases todo
      {
        var a :| a in todo;
        var copy := CopyResources(m[schedule][a]);
        actions := actions[a := copy];
        todo := todo - {a};
      }
      assert actions == m[schedule];
    }

    method GetActionsOfResource(schedule: string, resource: string) returns (found: map<string, int>)
      requires Valid()
      ensures forall a :: a in found <==> Key(schedule, a, resource) in ids
      ensures forall a :: a in found ==> found[a] == ids[Key(schedule, a, resource)]
    {
      found := map[];
      assert forall a :: Key(schedule, a, resource) in ids <==> Has(m, Key(schedule, a, resource));
      if schedule !in m {
        return;
      }
      var todo := m[schedule].Keys;
      while todo != {}
        invariant todo <= m[schedule].Keys
        invariant forall a :: a in found <==> a in m[schedule] && a !in todo && resource in m[schedule][a]
        invariant forall a :: a in found ==> found[a] == m[schedule][a][resource]
        decreases todo
      {
        var a :| a in todo;
        if resource in m[schedule][a] {
          found := found[a := m[schedule][a][resource]];
        }
        todo := todo - {a};
      }
    }

    /** The inner loop of both removals: one schedule, every action. */
    method RemoveUnder(schedule: string, resource: string) returns (removed: seq<string>, ghost ops: seq<Op>)
      requires Valid() && schedule in m
      modifies this
      ensures Valid() && Registry() == ApplyOps(old(Registry()), ops) && OnlyRemoves(ops)
      ensures forall k :: Removing(k) in ops <==> IsUnder(old(ids), schedule, resource, k)
      ensures m.Keys == old(m).Keys
      ensures removed == Names(ops)
    {
      removed, ops := [], [];
      ghost var reg0 := Registry();
      assert forall k :: k in ids <==> Has(m, k);
      var todo := m[schedule].Keys;
      while todo != {}
        invariant Valid() && m.Keys == old(m).Keys && todo <= m[schedule].Keys
        invariant Registry() == ApplyOps(reg0, ops) && OnlyRemoves(ops)
        invariant forall k :: Removing(k) in ops <==> IsUnder(reg0.ids, schedule, resource, k) && k.action !in todo
        invariant removed == Names(ops)
        decreases todo
      {
        var a :| a in todo;
        var k := Key(schedule, a, resource);
        RemovalIds(reg0, ops);
        assert k in ids <==> Has(m, k);
        if resource in m[schedule][a] {
          ApplyOpsSnoc(reg0, ops, Removing(k));
          NamesConcat(ops, [Removing(k)]);
          Remove(k);
          ops := ops + [Removing(k)];
          removed := removed + [a];
        }
        todo := todo - {a};
      }
    }

    method RemoveResource(resource: string) returns (ghost ops: seq<Op>)
      requires Valid()
      modifies this
      ensures Valid() && Registry() == ApplyOps(old(Registry()), ops) && OnlyRemoves(ops)
      ensures forall k :: Removing(k) in ops <==> IsOf(old(ids), resource, k)
    {
      ops := [];
      ghost var reg0 := Registry();
      assert forall k :: k in ids <==> Has(m, k);
      var todo := m.Keys;
      while todo != {}
        invariant Valid() && todo <= m.Keys
        invariant Registry() == ApplyOps(reg0, ops) && OnlyRemoves(ops)
        invariant forall k :: Removing(k) in ops <==> IsOf(reg0.ids, resource, k) && k.schedule !in todo
        decreases todo
      {
        var schedule :| schedule in todo;
        RemovalIds(reg0, ops);
        var _, more := RemoveUnder(schedule, resource);
        ApplyOpsConcat(reg0, ops, more);
        ops := ops + more;
        todo := todo - {schedule};
      }
    }

    method RemoveActionsOfResourceFromNonCurrentSchedule(current: string, resource: string)
      returns (removed: seq<string>, ghost ops: seq<Op>)
      requires Valid()
      modifies this
      ensures Valid() && Registry() == ApplyOps(old(Registry()), ops) && OnlyRemoves(ops)
      ensures forall k :: Removing(k) in ops <==> IsElsewhere(old(ids), current, resource, k)
      ensures removed == Names(ops)
    {
      removed, ops := [], [];
      ghost var reg0 := Registry();
      assert forall k :: k in ids <==> Has(m, k);
      var todo := m.Keys;
      while todo != {}
        invariant Valid() && todo <= m.Keys
        invariant Registry() == ApplyOps(reg0, ops) && OnlyRemoves(ops)
        invariant forall k :: Removing(k) in ops <==> IsElsewhere(reg0.ids, current, resource, k) && k.schedule !in todo
        invariant removed == Names(ops)
        decreases todo
      {
        var schedule :| schedule in todo;
        if schedule != current {
          RemovalIds(reg0, ops);
          var names, more := RemoveUnder(schedule, resource);
          ApplyOpsConcat(reg0, ops, more);
          NamesConcat(ops, more);
          ops := ops + more;
          removed := removed + names;
        }
        todo := todo - {schedule};
      }
    }
  }
}
