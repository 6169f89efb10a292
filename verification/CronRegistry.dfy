/** The cron registry as a value: keys, live entries, the next entry id and the gauge. */
module CronRegistry {
  datatype Key = Key(schedule: string, action: string, resource: string)

  /** A cron job is a closure over the names it was created for. */
  datatype Job = Job(key: Key)

  datatype Entry = Entry(spec: string, job: Job)

  type Gauge = map<(string, string), int>

  datatype Registry = Registry(ids: map<Key, int>, entries: map<int, Entry>, next: int, gauge: Gauge)

  const Empty := Registry(map[], map[], 1, map[])

  function GaugeAt(g: Gauge, schedule: string, action: string): int {
    if (schedule, action) in g then g[(schedule, action)] else 0
  }

  function Bump(g: Gauge, schedule: string, action: string, delta: int): (g': Gauge)
    ensures forall s, a :: GaugeAt(g', s, a) == GaugeAt(g, s, a) + if (s, a) == (schedule, action) then delta else 0
  {
    g[(schedule, action) := GaugeAt(g, schedule, action) + delta]
  }

  function AddKey(reg: Registry, k: Key, spec: string, job: Job): Registry {
    Registry(reg.ids[k := reg.next], reg.entries[reg.next := Entry(spec, job)], reg.next + 1,
             Bump(reg.gauge, k.schedule, k.action, 1))
  }

  function RemoveKey(reg: Registry, k: Key): Registry {
    if k !in reg.ids then reg
    else
      Registry(reg.ids - {k}, reg.entries - {reg.ids[k]}, reg.next, Bump(reg.gauge, k.schedule, k.action, -1))
  }

  predicate Refreshable(reg: Registry, k: Key) {
    k in reg.ids && reg.ids[k] in reg.entries
  }

  function RefreshKey(reg: Registry, k: Key, spec: string): Registry
    requires Refreshable(reg, k)
  {
    Registry(reg.ids[k := reg.next],
             reg.entries[reg.next := Entry(spec, reg.entries[reg.ids[k]].job)] - {reg.ids[k]},
             reg.next + 1, reg.gauge)
  }

  /** The keys that one gauge value counts. */
  ghost function Scheduled(ids: map<Key, int>, schedule: string, action: string): set<Key> {
    set k | k in ids && k.schedule == schedule && k.action == action
  }

  /** Keys and live entries are in bijection, and the entry of a key runs that key's job. */
  ghost predicate Linked(reg: Registry) {
    && 0 < reg.next
    && (forall k {:trigger Refreshable(reg, k)} :: k in reg.ids ==>
          Refreshable(reg, k) && reg.entries[reg.ids[k]].job == Job(k))
    && (forall i {:trigger Owned(reg, i)} :: i in reg.entries ==> 0 < i < reg.next && Owned(reg, i))
  }

  ghost predicate Owned(reg: Registry, i: int)
    requires i in reg.entries
  {
    reg.entries[i].job.key in reg.ids && reg.ids[reg.entries[i].job.key] == i
  }

  /** Every gauge value is the number of keys it stands for. */
  ghost predicate Counted(reg: Registry) {
    forall s, a {:trigger GaugeAt(reg.gauge, s, a)} :: GaugeAt(reg.gauge, s, a) == |Scheduled(reg.ids, s, a)|
  }

  ghost predicate Inv(reg: Registry) {
    Linked(reg) && Counted(reg)
  }

  lemma ScheduledAdd(ids: map<Key, int>, k: Key, id: int, s: string, a: string)
    requires k !in ids
    ensures |Scheduled(ids[k := id], s, a)| ==
            |Scheduled(ids, s, a)| + if (s, a) == (k.schedule, k.action) then 1 else 0
  {
    if (s, a) == (k.schedule, k.action) {
      assert Scheduled(ids[k := id], s, a) == Scheduled(ids, s, a) + {k};
    } else {
      assert Scheduled(ids[k := id], s, a) == Scheduled(ids, s, a);
    }
  }

  lemma IdBelowNext(reg: Registry, k: Key)
    requires Linked(reg) && k in reg.ids
    ensures Refreshable(reg, k) && reg.entries[reg.ids[k]].job == Job(k) && 0 < reg.ids[k] < reg.next
  {
    assert Refreshable(reg, k);
    assert Owned(reg, reg.ids[k]);
  }

  lemma AddKeepsInv(reg: Registry, k: Key, spec: string)
    requires Inv(reg) && k !in reg.ids
    ensures Inv(AddKey(reg, k, spec, Job(k)))
  {
    var reg' := AddKey(reg, k, spec, Job(k));
    assert Counted(reg') by {
      forall s, a ensures GaugeAt(reg'.gauge, s, a) == |Scheduled(reg'.ids, s, a)| {
        ScheduledAdd(reg.ids, k, reg.next, s, a);
      }
    }
    assert Linked(reg') by {
      forall i | i in reg'.entries ensures 0 < i < reg'.next && Owned(reg', i) {
        if i != reg.next {
          assert Owned(reg, i);
        }
      }
      forall l | l in reg'.ids ensures Refreshable(reg', l) && reg'.entries[reg'.ids[l]].job == Job(l) {
        if l != k {
          IdBelowNext(reg, l);
        }
      }
    }
  }

  /** Adding a key keeps the invariant exactly when the key is not there yet: on a present key the old
      entry stays live with no key and the gauge counts the key twice. */
  lemma AddKeepsInvIff(reg: Registry, k: Key, spec: string)
    requires Inv(reg)
    ensures Inv(AddKey(reg, k, spec, Job(k))) <==> k !in reg.ids
  {
    if k !in reg.ids {
      AddKeepsInv(reg, k, spec);
    } else {
      var reg' := AddKey(reg, k, spec, Job(k));
      assert Scheduled(reg'.ids, k.schedule, k.action) == Scheduled(reg.ids, k.schedule, k.action);
      assert GaugeAt(reg'.gauge, k.schedule, k.action) == GaugeAt(reg.gauge, k.schedule, k.action) + 1;
    }
  }

  /** Adding the same key twice to an empty registry leaves two live entries for one key. */
  lemma AddedTwice(k: Key, spec: string)
    ensures var reg := AddKey(AddKey(Empty, k, spec, Job(k)), k, spec, Job(k));
            reg.ids == map[k := 2] && reg.entries.Keys == {1, 2} && GaugeAt(reg.gauge, k.schedule, k.action) == 2
  {
  }

  lemma RemoveKeepsInv(reg: Registry, k: Key)
    requires Inv(reg) && k in reg.ids
    ensures Inv(RemoveKey(reg, k))
  {
    var reg' := RemoveKey(reg, k);
    assert Counted(reg') by {
      forall s, a ensures GaugeAt(reg'.gauge, s, a) == |Scheduled(reg'.ids, s, a)| {
        ScheduledAdd(reg'.ids, k, reg.ids[k], s, a);
        assert reg'.ids[k := reg.ids[k]] == reg.ids;
      }
    }
    assert Linked(reg') by {
      forall i | i in reg'.entries ensures 0 < i < reg'.next && Owned(reg', i) {
        assert Owned(reg, i);
      }
      forall l | l in reg'.ids ensures Refreshable(reg', l) && reg'.entries[reg'.ids[l]].job == Job(l) {
        IdBelowNext(reg, k);
        IdBelowNext(reg, l);
      }
    }
  }

  lemma RefreshKeepsInv(reg: Registry, k: Key, spec: string)
    requires Inv(reg) && k in reg.ids
    ensures Refreshable(reg, k)
    ensures Inv(RefreshKey(reg, k, spec))
  {
    IdBelowNext(reg, k);
    var reg' := RefreshKey(reg, k, spec);
    assert Counted(reg') by {
      forall s, a ensures GaugeAt(reg'.gauge, s, a) == |Scheduled(reg'.ids, s, a)| {
        assert Scheduled(reg'.ids, s, a) == Scheduled(reg.ids, s, a);
      }
    }
    assert Linked(reg') by {
      forall i | i in reg'.entries ensures 0 < i < reg'.next && Owned(reg', i) {
        if i != reg.next {
          assert Owned(reg, i);
        }
      }
      forall l | l in reg'.ids ensures Refreshable(reg', l) && reg'.entries[reg'.ids[l]].job == Job(l) {
        IdBelowNext(reg, k);
        IdBelowNext(reg, l);
      }
    }
  }

  // ---------------------------------------------------------------- edits

  /** The two registries hold the key with the same id and the same entry. */
  ghost predicate Same(reg: Registry, reg': Registry, k: Key) {
    && Refreshable(reg, k) && Refreshable(reg', k)
    && reg'.ids[k] == reg.ids[k] && reg'.entries[reg'.ids[k]] == reg.entries[reg.ids[k]]
  }

  /** `reg'` holds the key at an id that `reg` had not used yet, with the cron text `spec`. */
  ghost predicate Renewed(reg: Registry, reg': Registry, k: Key, spec: string) {
    Refreshable(reg', k) && reg'.ids[k] >= reg.next && reg'.entries[reg'.ids[k]].spec == spec
  }

  /** `reg'` is `reg` without the keys `gone` and with the new keys `added` at the given cron texts;
      every other key kept its id and its entry. */
  ghost predicate Edited(reg: Registry, reg': Registry, gone: set<Key>, added: map<Key, string>) {
    && (forall k :: k in gone ==> k in reg.ids)
    && (forall k :: k in added ==> k !in reg.ids)
    && (forall k :: k in reg'.ids <==> (k in reg.ids && k !in gone) || k in added)
    && (forall k :: k in reg.ids && k !in gone ==> Same(reg, reg', k))
    && (forall k :: k in added ==> Renewed(reg, reg', k, added[k]))
    && reg'.next == reg.next + |added|
  }

  /** `reg'` is `reg` with the entries of the keys of `specs` replaced by entries with the given cron texts. */
  ghost predicate Refreshed(reg: Registry, reg': Registry, specs: map<Key, string>) {
    && (forall k :: k in specs ==> k in reg.ids)
    && (forall k :: k in reg'.ids <==> k in reg.ids)
    && (forall k :: k in reg.ids && k !in specs ==> Same(reg, reg', k))
    && (forall k :: k in specs ==> Renewed(reg, reg', k, specs[k]))
    && reg'.next == reg.next + |specs|
  }

  lemma OthersSameAfterRemove(reg: Registry, k: Key, l: Key)
    requires Linked(reg) && k in reg.ids && l in reg.ids && k != l
    ensures Same(reg, RemoveKey(reg, k), l)
  {
    IdBelowNext(reg, k);
    IdBelowNext(reg, l);
  }

  lemma OthersSameAfterRefresh(reg: Registry, k: Key, spec: string, l: Key)
    requires Linked(reg) && k in reg.ids && l in reg.ids && k != l
    ensures Refreshable(reg, k) && Same(reg, RefreshKey(reg, k, spec), l)
  {
    IdBelowNext(reg, k);
    IdBelowNext(reg, l);
  }

  lemma EditedNothing(reg: Registry)
    requires Linked(reg)
    ensures Edited(reg, reg, {}, map[]) && Refreshed(reg, reg, map[])
  {
  }

  lemma EditedRemove(reg0: Registry, reg: Registry, gone: set<Key>, added: map<Key, string>, k: Key)
    requires Linked(reg) && Edited(reg0, reg, gone, added) && k !in added && k in reg.ids
    ensures Edited(reg0, RemoveKey(reg, k), gone + {k}, added)
  {
    forall l | l in reg.ids && l != k ensures Same(reg, RemoveKey(reg, k), l) {
      OthersSameAfterRemove(reg, k, l);
    }
    EditedWithout(reg0, reg, gone, added, k, RemoveKey(reg, k));
  }

  lemma EditedWithout(reg0: Registry, reg: Registry, gone: set<Key>, added: map<Key, string>, k: Key, reg': Registry)
    requires Edited(reg0, reg, gone, added) && k !in added && k in reg.ids
    requires forall l :: l in reg'.ids <==> l in reg.ids && l != k
    requires forall l :: l in reg.ids && l != k ==> Same(reg, reg', l)
    requires reg'.next == reg.next
    ensures Edited(reg0, reg', gone + {k}, added)
  {
    forall l | l in reg0.ids && l !in gone + {k} ensures Same(reg0, reg', l) {
      assert Same(reg0, reg, l) && Same(reg, reg', l);
    }
    forall l | l in added ensures Renewed(reg0, reg', l, added[l]) {
      assert Renewed(reg0, reg, l, added[l]) && Same(reg, reg', l);
    }
  }

  lemma SizeAdd(m: map<Key, string>, k: Key, spec: string)
    requires k !in m
    ensures |m[k := spec]| == |m| + 1
  {
    assert m[k := spec].Keys == m.Keys + {k};
    assert |m[k := spec].Keys| == |m.Keys| + 1;
  }

  lemma OthersSameAfterAdd(reg: Registry, k: Key, spec: string, l: Key)
    requires Linked(reg) && k !in reg.ids && l in reg.ids
    ensures Same(reg, AddKey(reg, k, spec, Job(k)), l)
  {
    IdBelowNext(reg, l);
  }

  lemma EditedAdd(reg0: Registry, reg: Registry, gone: set<Key>, added: map<Key, string>, k: Key, spec: string)
    requires Linked(reg) && Edited(reg0, reg, gone, added) && k !in reg.ids && k !in reg0.ids
    ensures Edited(reg0, AddKey(reg, k, spec, Job(k)), gone, added[k := spec])
  {
    var reg', added' := AddKey(reg, k, spec, Job(k)), added[k := spec];
    SizeAdd(added, k, spec);
    forall l | l in reg0.ids && l !in gone ensures Same(reg0, reg', l) {
      assert Same(reg0, reg, l);
      OthersSameAfterAdd(reg, k, spec, l);
    }
    forall l | l in added' ensures Renewed(reg0, reg', l, added'[l]) {
      if l != k {
        assert Renewed(reg0, reg, l, added[l]);
        OthersSameAfterAdd(reg, k, spec, l);
      }
    }
  }

  lemma RefreshedStep(reg0: Registry, reg: Registry, specs: map<Key, string>, k: Key, spec: string)
    requires Linked(reg) && Refreshed(reg0, reg, specs) && k !in specs && k in reg0.ids
    ensures Refreshable(reg, k) && Refreshed(reg0, RefreshKey(reg, k, spec), specs[k := spec])
  {
    IdBelowNext(reg, k);
    var reg', specs' := RefreshKey(reg, k, spec), specs[k := spec];
    SizeAdd(specs, k, spec);
    forall l | l in reg0.ids && l !in specs' ensures Same(reg0, reg', l) {
      assert Same(reg0, reg, l);
      OthersSameAfterRefresh(reg, k, spec, l);
    }
    forall l | l in specs' ensures Renewed(reg0, reg', l, specs'[l]) {
      if l != k {
        assert Renewed(reg0, reg, l, specs[l]);
        OthersSameAfterRefresh(reg, k, spec, l);
      }
    }
  }

  // ---------------------------------------------------------------- sequences of operations

  datatype Op = Removing(key: Key) | Adding(key: Key, spec: string) | Refreshing(key: Key, spec: string)

  function ApplyOp(reg: Registry, op: Op): Registry {
    match op
    case Removing(k) => RemoveKey(reg, k)
    case Adding(k, spec) => AddKey(reg, k, spec, Job(k))
    case Refreshing(k, spec) => if Refreshable(reg, k) then RefreshKey(reg, k, spec) else reg
  }

  function ApplyOps(reg: Registry, ops: seq<Op>): Registry {
    if ops == [] then reg else ApplyOp(ApplyOps(reg, ops[..|ops| - 1]), ops[|ops| - 1])
  }

  lemma ApplyOpsSnoc(reg: Registry, ops: seq<Op>, op: Op)
    ensures ApplyOps(reg, ops + [op]) == ApplyOp(ApplyOps(reg, ops), op)
  {
    assert (ops + [op])[..|ops|] == ops;
  }

  lemma {:induction false} ApplyOpsConcat(reg: Registry, ops: seq<Op>, more: seq<Op>)
    ensures ApplyOps(reg, ops + more) == ApplyOps(ApplyOps(reg, ops), more)
  {
    if more == [] {
      assert ops + more == ops;
    } else {
      assert ops + more == (ops + more[..|more| - 1]) + [more[|more| - 1]];
      ApplyOpsSnoc(reg, ops + more[..|more| - 1], more[|more| - 1]);
      ApplyOpsConcat(reg, ops, more[..|more| - 1]);
    }
  }

  /** The actions that the operations name. */
  function Names(ops: seq<Op>): seq<string> {
    if ops == [] then [] else [ops[0].key.action] + Names(ops[1..])
  }

  lemma {:induction false} NamesConcat(ops: seq<Op>, more: seq<Op>)
    ensures Names(ops + more) == Names(ops) + Names(more)
    ensures |more| == 1 ==> Names(more) == [more[0].key.action]
  {
    if ops == [] {
      assert ops + more == more;
    } else {
      assert (ops + more)[1..] == ops[1..] + more;
      NamesConcat(ops[1..], more);
    }
  }

  ghost predicate OnlyRemoves(ops: seq<Op>) {
    forall op :: op in ops ==> op.Removing?
  }

  lemma {:induction false} RemovalIds(reg: Registry, ops: seq<Op>)
    requires OnlyRemoves(ops)
    ensures forall k :: k in ApplyOps(reg, ops).ids <==> k in reg.ids && Removing(k) !in ops
    ensures forall k :: k in ApplyOps(reg, ops).ids ==> ApplyOps(reg, ops).ids[k] == reg.ids[k]
  {
    if ops != [] {
      var init, op := ops[..|ops| - 1], ops[|ops| - 1];
      assert ops == init + [op];
      RemovalIds(reg, init);
    }
  }

  /** The key belongs to the resource under the schedule. */
  ghost predicate IsUnder(ids: map<Key, int>, schedule: string, resource: string, k: Key) {
    k in ids && k.schedule == schedule && k.resource == resource
  }

  /** The key belongs to the resource. */
  ghost predicate IsOf(ids: map<Key, int>, resource: string, k: Key) {
    k in ids && k.resource == resource
  }

  /** The key belongs to the resource under another schedule. */
  ghost predicate IsElsewhere(ids: map<Key, int>, current: string, resource: string, k: Key) {
    k in ids && k.resource == resource && k.schedule != current
  }

  /** Removals and additions, in any order, where no added key was there before or is named twice. */
  ghost predicate EditOps(reg: Registry, ops: seq<Op>) {
    && (forall i :: 0 <= i < |ops| ==> !ops[i].Refreshing?)
    && (forall i :: 0 <= i < |ops| && ops[i].Adding? ==> ops[i].key !in reg.ids)
    && (forall i, j :: 0 <= i < j < |ops| && (ops[i].Adding? || ops[j].Adding?) ==> ops[i].key != ops[j].key)
  }

  ghost function RemovedBy(reg: Registry, ops: seq<Op>): set<Key> {
    set k | k in reg.ids && Removing(k) in ops
  }

  ghost function AddedBy(ops: seq<Op>): (added: map<Key, string>)
    ensures forall k :: k in added ==> Adding(k, added[k]) in ops
    ensures forall k, spec :: Adding(k, spec) in ops ==> k in added
  {
    if ops == [] then map[]
    else
      var op := ops[|ops| - 1];
      assert ops == ops[..|ops| - 1] + [op];
      if op.Adding? then AddedBy(ops[..|ops| - 1])[op.key := op.spec] else AddedBy(ops[..|ops| - 1])
  }

  lemma EditOpsInit(reg: Registry, init: seq<Op>, op: Op)
    requires EditOps(reg, init + [op])
    ensures EditOps(reg, init)
    ensures !op.Refreshing? && op.key !in AddedBy(init)
    ensures op.Adding? ==> op.key !in reg.ids
    ensures RemovedBy(reg, init + [op]) ==
            RemovedBy(reg, init) + if op.Removing? && op.key in reg.ids then {op.key} else {}
    ensures AddedBy(init + [op]) == if op.Adding? then AddedBy(init)[op.key := op.spec] else AddedBy(init)
  {
    var ops := init + [op];
    assert forall i :: 0 <= i < |init| ==> ops[i] == init[i];
    assert ops[|init|] == op && ops[..|init|] == init;
  }

  lemma EditStep(reg: Registry, mid: Registry, gone: set<Key>, added: map<Key, string>, op: Op)
    requires Inv(mid) && Edited(reg, mid, gone, added)
    requires !op.Refreshing? && op.key !in added && (op.Adding? ==> op.key !in reg.ids)
    ensures Inv(ApplyOp(mid, op))
    ensures Edited(reg, ApplyOp(mid, op), gone + (if op.Removing? && op.key in reg.ids then {op.key} else {}),
                   if op.Adding? then added[op.key := op.spec] else added)
  {
    if op.Adding? {
      AddKeepsInv(mid, op.key, op.spec);
      EditedAdd(reg, mid, gone, added, op.key, op.spec);
      assert gone + {} == gone;
    } else if op.key in mid.ids {
      RemoveKeepsInv(mid, op.key);
      EditedRemove(reg, mid, gone, added, op.key);
    } else {
      assert gone + (if op.key in reg.ids then {op.key} else {}) == gone;
    }
  }

  /** Such operations keep the invariant and amount to one edit, whatever their order. */
  lemma {:induction false} OpsEdit(reg: Registry, ops: seq<Op>)
    requires Inv(reg) && EditOps(reg, ops)
    ensures Inv(ApplyOps(reg, ops))
    ensures Edited(reg, ApplyOps(reg, ops), RemovedBy(reg, ops), AddedBy(ops))
  {
    if ops == [] {
      EditedNothing(reg);
      assert RemovedBy(reg, ops) == {};
    } else {
      var init, op := ops[..|ops| - 1], ops[|ops| - 1];
      assert ops == init + [op];
      EditOpsInit(reg, init, op);
      OpsEdit(reg, init);
      EditStep(reg, ApplyOps(reg, init), RemovedBy(reg, init), AddedBy(init), op);
    }
  }

  /** Refreshes of keys that are there, each at most once, at texts given by `specs`. */
  ghost predicate RefreshOps(reg: Registry, ops: seq<Op>, specs: map<Key, string>) {
    && (forall i :: 0 <= i < |ops| ==>
          ops[i].Refreshing? && ops[i].key in specs && ops[i].key in reg.ids && ops[i].spec == specs[ops[i].key])
    && (forall i, j :: 0 <= i < j < |ops| ==> ops[i].key != ops[j].key)
  }

  ghost function RefreshedBy(ops: seq<Op>, specs: map<Key, string>): map<Key, string> {
    map k | k in specs && Refreshing(k, specs[k]) in ops :: specs[k]
  }

  lemma RefreshOpsInit(reg: Registry, init: seq<Op>, op: Op, specs: map<Key, string>)
    requires RefreshOps(reg, init + [op], specs)
    ensures RefreshOps(reg, init, specs)
    ensures op.Refreshing? && op.key in reg.ids && op.key !in RefreshedBy(init, specs)
    ensures RefreshedBy(init + [op], specs) == RefreshedBy(init, specs)[op.key := op.spec]
  {
    var ops := init + [op];
    assert forall i :: 0 <= i < |init| ==> ops[i] == init[i];
    assert ops[|init|] == op;
  }

  lemma RefreshStep(reg: Registry, mid: Registry, specs: map<Key, string>, k: Key, spec: string)
    requires Inv(mid) && Refreshed(reg, mid, specs) && k !in specs && k in reg.ids
    ensures Inv(ApplyOp(mid, Refreshing(k, spec)))
    ensures Refreshed(reg, ApplyOp(mid, Refreshing(k, spec)), specs[k := spec])
  {
    RefreshKeepsInv(mid, k, spec);
    RefreshedStep(reg, mid, specs, k, spec);
  }

  lemma {:induction false} OpsRefresh(reg: Registry, ops: seq<Op>, specs: map<Key, string>)
    requires Inv(reg) && RefreshOps(reg, ops, specs)
    ensures Inv(ApplyOps(reg, ops))
    ensures Refreshed(reg, ApplyOps(reg, ops), RefreshedBy(ops, specs))
  {
    if ops == [] {
      EditedNothing(reg);
      assert RefreshedBy(ops, specs) == map[];
    } else {
      var init, op := ops[..|ops| - 1], ops[|ops| - 1];
      assert ops == init + [op];
      RefreshOpsInit(reg, init, op, specs);
      OpsRefresh(reg, init, specs);
      RefreshStep(reg, ApplyOps(reg, init), RefreshedBy(init, specs), op.key, op.spec);
    }
  }
}
