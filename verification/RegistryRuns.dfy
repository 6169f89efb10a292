/** Runs of the operator's registry: any sequence of resource, schedule and delete passes. */
module RegistryRuns {
  import opened Base
  import opened CronRegistry
  import opened ResourcePass
  import opened SchedulePass

  // ---------------------------------------------------------------- what one resource pass amounts to

  ghost function Stale(reg: Registry, p: Resource): set<Key> {
    set k | k in reg.ids && Unsupported(p, k)
  }

  lemma PassEdits(valid: string -> bool, reg: Registry, p: Resource, fetched: Option<ScheduleSpec>,
                  result: Result, ops: seq<Op>)
    requires PassOps(valid, reg, p, fetched, result, ops)
    ensures EditOps(reg, ops)
    ensures forall k :: k in RemovedBy(reg, ops) ==> k.resource == p.name
    ensures forall k :: k in AddedBy(ops) ==> k == p.KeyOf(k.action)
    ensures result.Done? || result.Failed? ==>
              forall k :: k in reg.ids && k.resource == p.name && k.schedule != p.schedule ==> k in RemovedBy(reg, ops)
    ensures result.Disabled? || result.ScheduleNotExist? ==> AddedBy(ops) == map[]
  {
    if result.Disabled? {
      RemovesAreEdits(reg, ops);
    }
  }

  lemma DoneRemoves(valid: string -> bool, reg: Registry, p: Resource, s: ScheduleSpec, ops: seq<Op>)
    requires Progress(valid, reg, p, s, {}, ops)
    ensures RemovedBy(reg, ops) == Stale(reg, p)
  {
    forall k ensures k in RemovedBy(reg, ops) <==> k in Stale(reg, p) {
      assert k in Stale(reg, p) <==> IsStale(reg, p, k);
    }
  }

  lemma DoneAdds(valid: string -> bool, reg: Registry, p: Resource, s: ScheduleSpec, ops: seq<Op>)
    requires Progress(valid, reg, p, s, {}, ops)
    ensures AddedBy(ops) == Wanted(reg, p, s)
  {
    var added, wanted := AddedBy(ops), Wanted(reg, p, s);
    forall k | k in wanted ensures k in added {
      assert Adding(k, wanted[k]) in ops;
    }
    forall k | k in added ensures k in wanted && wanted[k] == added[k] {
      assert Adding(k, added[k]) in ops;
    }
  }

  /** A pass that ends well is exactly this edit, whatever order its loops took. */
  lemma DoneEdit(valid: string -> bool, reg: Registry, p: Resource, s: ScheduleSpec, ops: seq<Op>)
    requires Inv(reg) && PassOps(valid, reg, p, Some(s), Done, ops)
    ensures Inv(ApplyOps(reg, ops))
    ensures Edited(reg, ApplyOps(reg, ops), Stale(reg, p), Wanted(reg, p, s))
  {
    DoneRemoves(valid, reg, p, s, ops);
    DoneAdds(valid, reg, p, s, ops);
    OpsEdit(reg, ops);
  }

  /** After a pass that ends well, an action is scheduled for the resource exactly when the resource's spec
      has it active and it was scheduled under this schedule already or the schedule defines it; under any
      other schedule the resource has nothing. */
  lemma DoneSchedules(valid: string -> bool, reg: Registry, p: Resource, s: ScheduleSpec, ops: seq<Op>, k: Key)
    requires Inv(reg) && PassOps(valid, reg, p, Some(s), Done, ops)
    requires k.resource == p.name
    ensures k in ApplyOps(reg, ops).ids <==>
              && k.schedule == p.schedule
              && k.action in p.actions && p.actions[k.action]
              && (k in reg.ids || k.action in s.actions)
  {
    DoneEdit(valid, reg, p, s, ops);
    assert k.schedule == p.schedule ==> k == p.KeyOf(k.action);
  }

  /** A pass over an active resource with its schedule at hand fails exactly when it has to add an action
      whose cron text is invalid. */
  lemma FailsIff(valid: string -> bool, reg: Registry, p: Resource, s: ScheduleSpec, result: Result, ops: seq<Op>)
    requires p.active && PassOps(valid, reg, p, Some(s), result, ops)
    ensures result == Failed <==> exists a :: Refuses(valid, reg, p, s, a)
    ensures result == Failed || result == Done
  {
    if result == Done {
      forall a ensures !Refuses(valid, reg, p, s, a) {
        assert Wants(reg, p, s, a) ==> p.KeyOf(a) in Wanted(reg, p, s);
      }
    }
  }

  lemma {:induction false} NothingToRemove(reg: Registry, ops: seq<Op>)
    requires forall op :: op in ops ==> op.Removing? && op.key !in reg.ids
    ensures ApplyOps(reg, ops) == reg
  {
    if ops != [] {
      var init := ops[..|ops| - 1];
      assert ops == init + [ops[|ops| - 1]];
      NothingToRemove(reg, init);
      assert ops[|ops| - 1] in ops;
    }
  }

  /** A second pass with the same inputs ends well too and changes nothing, not even an id. */
  lemma PassTwice(valid: string -> bool, reg: Registry, p: Resource, s: ScheduleSpec,
                  ops: seq<Op>, result: Result, again: seq<Op>)
    requires Inv(reg) && PassOps(valid, reg, p, Some(s), Done, ops)
    requires PassOps(valid, ApplyOps(reg, ops), p, Some(s), result, again)
    ensures result == Done && ApplyOps(ApplyOps(reg, ops), again) == ApplyOps(reg, ops)
  {
    var reg1 := ApplyOps(reg, ops);
    forall a ensures !Wants(reg1, p, s, a) {
      DoneSchedules(valid, reg, p, s, ops, p.KeyOf(a));
    }
    forall op | op in again ensures op.Removing? && op.key !in reg1.ids {
      AgainNoop(valid, reg, p, s, ops, again, op);
    }
    NothingToRemove(reg1, again);
  }

  lemma AgainNoop(valid: string -> bool, reg: Registry, p: Resource, s: ScheduleSpec, ops: seq<Op>, again: seq<Op>,
                  op: Op)
    requires Inv(reg) && PassOps(valid, reg, p, Some(s), Done, ops)
    requires Progress(valid, ApplyOps(reg, ops), p, s, {}, again) && op in again
    ensures op.Removing? && op.key !in ApplyOps(reg, ops).ids
  {
    var i :| 0 <= i < |again| && again[i] == op;
    DoneSchedules(valid, reg, p, s, ops, p.KeyOf(op.key.action));
    if op.Removing? {
      assert Removing(op.key) in again;
      DoneSchedules(valid, reg, p, s, ops, op.key);
    }
  }

  /** No pass touches another resource's entries. */
  lemma OtherResourcesKept(valid: string -> bool, reg: Registry, p: Resource, fetched: Option<ScheduleSpec>,
                           result: Result, ops: seq<Op>, k: Key)
    requires Inv(reg) && PassOps(valid, reg, p, fetched, result, ops) && k.resource != p.name
    ensures k in ApplyOps(reg, ops).ids <==> k in reg.ids
    ensures k in reg.ids ==> Same(reg, ApplyOps(reg, ops), k)
  {
    PassEdits(valid, reg, p, fetched, result, ops);
    OpsEdit(reg, ops);
  }

  /** The operations of a disable or delete pass. */
  ghost predicate RemovesResource(reg: Registry, resource: string, ops: seq<Op>) {
    OnlyRemoves(ops) && forall k :: Removing(k) in ops <==> IsOf(reg.ids, resource, k)
  }

  /** After it, the resource has no entry and every other key is as it was. */
  lemma ResourceGone(reg: Registry, resource: string, ops: seq<Op>, k: Key)
    requires Inv(reg) && RemovesResource(reg, resource, ops)
    ensures k in ApplyOps(reg, ops).ids <==> k in reg.ids && k.resource != resource
    ensures k in ApplyOps(reg, ops).ids ==> Same(reg, ApplyOps(reg, ops), k)
  {
    RemovesAreEdits(reg, ops);
    OpsEdit(reg, ops);
    assert forall l, spec :: Adding(l, spec) !in ops;
  }

  // ---------------------------------------------------------------- runs

  datatype Pass =
    | OfResource(p: Resource, fetched: Option<ScheduleSpec>, result: Result, ops: seq<Op>)
    | OfSchedule(name: string, s: ScheduleSpec, ops: seq<Op>)
    | OfDeleted(resource: string, ops: seq<Op>)

  ghost predicate Permits(valid: string -> bool, reg: Registry, pass: Pass) {
    match pass
    case OfResource(p, fetched, result, ops) => PassOps(valid, reg, p, fetched, result, ops)
    case OfSchedule(name, s, ops) => PassRefreshes(valid, reg, name, s, ops)
    case OfDeleted(resource, ops) => RemovesResource(reg, resource, ops)
  }

  /** The registry after a sequence of passes. */
  function State(passes: seq<Pass>): Registry {
    if passes == [] then Empty else ApplyOps(State(passes[..|passes| - 1]), passes[|passes| - 1].ops)
  }

  ghost predicate Run(valid: string -> bool, passes: seq<Pass>) {
    passes == [] ||
    (Run(valid, passes[..|passes| - 1]) && Permits(valid, State(passes[..|passes| - 1]), passes[|passes| - 1]))
  }

  /** Each resource has entries under at most one schedule. */
  ghost predicate OneSchedule(reg: Registry) {
    forall k, l :: k in reg.ids && l in reg.ids && k.resource == l.resource ==> k.schedule == l.schedule
  }

  lemma EmptyInv()
    ensures Inv(Empty) && OneSchedule(Empty)
  {
    forall s, a ensures GaugeAt(Empty.gauge, s, a) == |Scheduled(Empty.ids, s, a)| {
      assert Scheduled(Empty.ids, s, a) == {};
    }
  }

  lemma PassRefreshOps(valid: string -> bool, reg: Registry, name: string, s: ScheduleSpec, ops: seq<Op>)
    requires PassRefreshes(valid, reg, name, s, ops)
    ensures RefreshOps(reg, ops, Due(reg.ids, name, s))
  {
  }

  lemma PassKeeps(valid: string -> bool, reg: Registry, pass: Pass)
    requires Inv(reg) && OneSchedule(reg) && Permits(valid, reg, pass)
    ensures Inv(ApplyOps(reg, pass.ops)) && OneSchedule(ApplyOps(reg, pass.ops))
  {
    match pass
    case OfResource(p, fetched, result, ops) =>
      PassEdits(valid, reg, p, fetched, result, ops);
      OpsEdit(reg, ops);
    case OfSchedule(name, s, ops) =>
      PassRefreshOps(valid, reg, name, s, ops);
      OpsRefresh(reg, ops, Due(reg.ids, name, s));
    case OfDeleted(resource, ops) =>
      RemovesAreEdits(reg, ops);
      OpsEdit(reg, ops);
      assert forall l, spec :: Adding(l, spec) !in ops;
  }

  /** In every state that any sequence of passes reaches: keys and live entries are in bijection, each entry
      runs its key's job, each gauge value is the number of its keys, and no resource is under two schedules. */
  lemma {:induction false} RunKeeps(valid: string -> bool, passes: seq<Pass>)
    requires Run(valid, passes)
    ensures Inv(State(passes)) && OneSchedule(State(passes))
  {
    if passes == [] {
      EmptyInv();
    } else {
      RunKeeps(valid, passes[..|passes| - 1]);
      PassKeeps(valid, State(passes[..|passes| - 1]), passes[|passes| - 1]);
    }
  }

  // ---------------------------------------------------------------- the two reconcilers together

  /** What runs under a key, whatever its id. */
  function EntryAt(reg: Registry, k: Key): Option<Entry> {
    if Refreshable(reg, k) then Some(reg.entries[reg.ids[k]]) else None
  }

  /** The registries run the same entries under the same keys and show the same gauge values. */
  ghost predicate SameUpToIds(reg: Registry, reg': Registry) {
    && (forall k :: EntryAt(reg, k) == EntryAt(reg', k))
    && (forall s, a :: GaugeAt(reg.gauge, s, a) == GaugeAt(reg'.gauge, s, a))
  }

  /** A valid schedule, none of whose live entries uses an action it dropped. */
  ghost predicate Settled(valid: string -> bool, ids: map<Key, int>, name: string, s: ScheduleSpec) {
    SpecValid(valid, s) && !Dropped(ids, name, s)
  }

  /** The entry of a key after its schedule is refreshed but for the actions of `todo`. */
  ghost function RefreshedEntry(reg: Registry, name: string, s: ScheduleSpec, k: Key, todo: set<string> := {})
    : Option<Entry>
  {
    if k in reg.ids && k.schedule == name && k.action in s.actions && k.action !in todo
    then Some(Entry(s.actions[k.action].cron, Job(k)))
    else EntryAt(reg, k)
  }

  /** The entry of a key after a resource is reconciled. */
  ghost function ReconciledEntry(reg: Registry, p: Resource, s: ScheduleSpec, k: Key): Option<Entry> {
    if k == p.KeyOf(k.action) && Wants(reg, p, s, k.action) then Some(Entry(s.actions[k.action].cron, Job(k)))
    else if Unsupported(p, k) then None
    else EntryAt(reg, k)
  }

  lemma AfterRefreshes(reg: Registry, name: string, s: ScheduleSpec, todo: set<string>, ops: seq<Op>, k: Key)
    requires Inv(reg) && RefreshedBut(reg, name, s, todo, ops)
    ensures Inv(ApplyOps(reg, ops))
    ensures EntryAt(ApplyOps(reg, ops), k) == RefreshedEntry(reg, name, s, k, todo)
  {
    var due := Due(reg.ids, name, s);
    OpsRefresh(reg, ops, due);
    var reg' := ApplyOps(reg, ops);
    var renewed := RefreshedBy(ops, due);
    if k in reg.ids {
      IdBelowNext(reg, k);
      IdBelowNext(reg', k);
      if k in renewed {
        assert Renewed(reg, reg', k, renewed[k]);
      } else {
        assert Same(reg, reg', k);
      }
    }
  }

  /** After a pass over a settled schedule, every live entry of the schedule has the cron text that the
      schedule gives its action, and every other entry is as before. */
  lemma AfterSchedule(valid: string -> bool, reg: Registry, name: string, s: ScheduleSpec, ops: seq<Op>, k: Key)
    requires Inv(reg) && PassRefreshes(valid, reg, name, s, ops) && Settled(valid, reg.ids, name, s)
    ensures Inv(ApplyOps(reg, ops))
    ensures EntryAt(ApplyOps(reg, ops), k) == RefreshedEntry(reg, name, s, k)
  {
    AfterRefreshes(reg, name, s, {}, ops, k);
  }

  /** A pass over a valid schedule is sure to leave an entry at the cron text that the schedule gives its
      action, if and only if no live entry uses a dropped action or the entry had that text before: once an
      action is dropped, the order of the loop decides which of the others are refreshed. */
  lemma RefreshSureIff(valid: string -> bool, reg: Registry, name: string, s: ScheduleSpec, k: Key)
    requires Inv(reg) && SpecValid(valid, s) && k in reg.ids && k.schedule == name && k.action in s.actions
    ensures (forall ops :: PassRefreshes(valid, reg, name, s, ops) ==>
               EntryAt(ApplyOps(reg, ops), k) == Some(Entry(s.actions[k.action].cron, Job(k)))) <==>
            !Dropped(reg.ids, name, s) || EntryAt(reg, k) == Some(Entry(s.actions[k.action].cron, Job(k)))
  {
    forall ops | PassRefreshes(valid, reg, name, s, ops)
      ensures exists todo :: EntryAt(ApplyOps(reg, ops), k) == RefreshedEntry(reg, name, s, k, todo)
      ensures !Dropped(reg.ids, name, s) ==> EntryAt(ApplyOps(reg, ops), k) == RefreshedEntry(reg, name, s, k)
    {
      var todo :| RefreshedBut(reg, name, s, todo, ops) && (!Dropped(reg.ids, name, s) ==> todo == {});
      AfterRefreshes(reg, name, s, todo, ops, k);
    }
    if Dropped(reg.ids, name, s) {
      RefreshedStart(reg, name, s, set l | l in reg.ids :: l.action);
      assert PassRefreshes(valid, reg, name, s, []) && ApplyOps(reg, []) == reg;
    }
  }

  /** What a schedule pass does to the registry, key by key: nothing over a spec with an inverted period or an
      invalid text; when neither stands in its way and no live entry uses an action the spec dropped, every live
      entry of the schedule runs at the text the spec gives its action; and it never touches another entry. */
  lemma RefreshesTell(valid: string -> bool, reg: Registry, name: string, s: ScheduleSpec, ops: seq<Op>, k: Key)
    requires Inv(reg) && PassRefreshes(valid, reg, name, s, ops)
    ensures SomeInverted(s) || SomeInvalid(valid, s) ==> ApplyOps(reg, ops) == reg
    ensures k in ApplyOps(reg, ops).ids <==> k in reg.ids
    ensures && !SomeInverted(s) && !SomeInvalid(valid, s) && k in reg.ids && k.schedule == name
            && (forall l :: l in reg.ids && l.schedule == name ==> l.action in s.actions) ==>
              EntryAt(ApplyOps(reg, ops), k) == Some(Entry(s.actions[k.action].cron, Job(k)))
    ensures k.schedule != name || k.action !in s.actions ==> EntryAt(ApplyOps(reg, ops), k) == EntryAt(reg, k)
  {
    InvertedIff(s);
    var todo := {};
    if SpecValid(valid, s) && Dropped(reg.ids, name, s) {
      todo :| RefreshedBut(reg, name, s, todo, ops);
    }
    if SpecValid(valid, s) {
      AfterRefreshes(reg, name, s, todo, ops, k);
      OpsRefresh(reg, ops, Due(reg.ids, name, s));
    }
  }

  /** After a resource pass that ends well: stale keys are gone, wanted keys run at the schedule's cron text,
      and every other entry is as before. */
  lemma AfterResource(valid: string -> bool, reg: Registry, p: Resource, s: ScheduleSpec, ops: seq<Op>, k: Key)
    requires Inv(reg) && PassOps(valid, reg, p, Some(s), Done, ops)
    ensures Inv(ApplyOps(reg, ops))
    ensures EntryAt(ApplyOps(reg, ops), k) == ReconciledEntry(reg, p, s, k)
  {
    DoneEdit(valid, reg, p, s, ops);
    var reg' := ApplyOps(reg, ops);
    if k in reg'.ids {
      IdBelowNext(reg', k);
      if k in reg.ids {
        IdBelowNext(reg, k);
        assert Same(reg, reg', k);
      } else {
        assert Renewed(reg, reg', k, Wanted(reg, p, s)[k]);
      }
    }
  }

  lemma EntriesDecideGauges(reg: Registry, reg': Registry)
    requires Inv(reg) && Inv(reg') && forall k :: EntryAt(reg, k) == EntryAt(reg', k)
    ensures SameUpToIds(reg, reg')
  {
    forall k ensures k in reg.ids <==> k in reg'.ids {
      assert EntryAt(reg, k) == EntryAt(reg', k);
      if k in reg.ids { IdBelowNext(reg, k); }
      if k in reg'.ids { IdBelowNext(reg', k); }
    }
    forall s, a ensures GaugeAt(reg.gauge, s, a) == GaugeAt(reg'.gauge, s, a) {
      assert Scheduled(reg.ids, s, a) == Scheduled(reg'.ids, s, a);
    }
  }

  lemma PresentIffEntry(reg: Registry, k: Key)
    requires Inv(reg)
    ensures k in reg.ids <==> EntryAt(reg, k).Some?
  {
    if k in reg.ids {
      IdBelowNext(reg, k);
    }
  }

  /** The two updates of one key's entry commute. */
  lemma EntriesAgree(reg: Registry, a: Registry, b: Registry, c: Registry, d: Registry, p: Resource, s: ScheduleSpec,
                     k: Key)
    requires forall r :: r in {reg, a, b, c, d} ==> (k in r.ids <==> EntryAt(r, k).Some?)
    requires k in reg.ids && k.schedule == p.schedule ==> k.action in s.actions
    requires EntryAt(a, k) == ReconciledEntry(reg, p, s, k) && EntryAt(b, k) == RefreshedEntry(a, p.schedule, s, k)
    requires EntryAt(c, k) == RefreshedEntry(reg, p.schedule, s, k) && EntryAt(d, k) == ReconciledEntry(c, p, s, k)
    ensures EntryAt(b, k) == EntryAt(d, k)
    ensures k in b.ids && k.schedule == p.schedule ==>
              k.action in s.actions && EntryAt(b, k) == Some(Entry(s.actions[k.action].cron, Job(k)))
  {
    assert k in reg.ids <==> k in c.ids;
  }

  lemma SettledAfterResource(valid: string -> bool, reg: Registry, p: Resource, s: ScheduleSpec, ops: seq<Op>)
    requires Inv(reg) && Settled(valid, reg.ids, p.schedule, s) && PassOps(valid, reg, p, Some(s), Done, ops)
    ensures Inv(ApplyOps(reg, ops)) && Settled(valid, ApplyOps(reg, ops).ids, p.schedule, s)
  {
    DoneEdit(valid, reg, p, s, ops);
  }

  lemma CommuteAt(valid: string -> bool, reg: Registry, p: Resource, s: ScheduleSpec,
                  resource: seq<Op>, thenSchedule: seq<Op>, schedule: seq<Op>, thenResource: seq<Op>, k: Key)
    requires Inv(reg) && Settled(valid, reg.ids, p.schedule, s)
    requires PassOps(valid, reg, p, Some(s), Done, resource)
    requires PassRefreshes(valid, ApplyOps(reg, resource), p.schedule, s, thenSchedule)
    requires PassRefreshes(valid, reg, p.schedule, s, schedule)
    requires PassOps(valid, ApplyOps(reg, schedule), p, Some(s), Done, thenResource)
    ensures var b := ApplyOps(ApplyOps(reg, resource), thenSchedule);
            var d := ApplyOps(ApplyOps(reg, schedule), thenResource);
            && Inv(b) && Inv(d) && EntryAt(b, k) == EntryAt(d, k)
            && (k in b.ids && k.schedule == p.schedule ==>
                  k.action in s.actions && EntryAt(b, k) == Some(Entry(s.actions[k.action].cron, Job(k))))
  {
    var a, c := ApplyOps(reg, resource), ApplyOps(reg, schedule);
    var b, d := ApplyOps(a, thenSchedule), ApplyOps(c, thenResource);
    SettledAfterResource(valid, reg, p, s, resource);
    AfterResource(valid, reg, p, s, resource, k);
    AfterSchedule(valid, a, p.schedule, s, thenSchedule, k);
    AfterSchedule(valid, reg, p.schedule, s, schedule, k);
    AfterResource(valid, c, p, s, thenResource, k);
    forall r | r in {reg, a, b, c, d} ensures k in r.ids <==> EntryAt(r, k).Some? {
      PresentIffEntry(r, k);
    }
    EntriesAgree(reg, a, b, c, d, p, s, k);
  }

  /** A pass over a settled schedule and a pass that ends well over a resource of that schedule commute up
      to ids, and leave every live entry of the schedule at the cron text the schedule gives its action. */
  lemma PassesCommute(valid: string -> bool, reg: Registry, p: Resource, s: ScheduleSpec,
                      resource: seq<Op>, thenSchedule: seq<Op>, schedule: seq<Op>, thenResource: seq<Op>)
    requires Inv(reg) && Settled(valid, reg.ids, p.schedule, s)
    requires PassOps(valid, reg, p, Some(s), Done, resource)
    requires PassRefreshes(valid, ApplyOps(reg, resource), p.schedule, s, thenSchedule)
    requires PassRefreshes(valid, reg, p.schedule, s, schedule)
    requires PassOps(valid, ApplyOps(reg, schedule), p, Some(s), Done, thenResource)
    ensures var b := ApplyOps(ApplyOps(reg, resource), thenSchedule);
            && SameUpToIds(b, ApplyOps(ApplyOps(reg, schedule), thenResource))
            && forall k :: k in b.ids && k.schedule == p.schedule ==>
                 k.action in s.actions && EntryAt(b, k) == Some(Entry(s.actions[k.action].cron, Job(k)))
  {
    var b := ApplyOps(ApplyOps(reg, resource), thenSchedule);
    var d := ApplyOps(ApplyOps(reg, schedule), thenResource);
    CommuteAt(valid, reg, p, s, resource, thenSchedule, schedule, thenResource, p.KeyOf(""));
    forall k ensures EntryAt(b, k) == EntryAt(d, k) &&
        (k in b.ids && k.schedule == p.schedule ==>
           k.action in s.actions && EntryAt(b, k) == Some(Entry(s.actions[k.action].cron, Job(k))))
    {
      CommuteAt(valid, reg, p, s, resource, thenSchedule, schedule, thenResource, k);
    }
    EntriesDecideGauges(b, d);
  }
}
