/** What a pass over a resource comes to, told by the resource's spec, its schedule's spec and what was there before. */
module ResourceOutcome {
  import opened Base
  import opened CronRegistry
  import opened Conditions
  import opened ResourcePass
  import opened RegistryRuns

  // ---------------------------------------------------------------- how it ends

  /** The spec has the action active and the schedule defines it, but with a text that is no cron expression, and
      it is not scheduled yet. */
  ghost predicate CannotSchedule(valid: string -> bool, reg: Registry, p: Resource, s: ScheduleSpec, a: string) {
    && a in p.actions && p.actions[a] && a in s.actions && !valid(s.actions[a].cron)
    && Key(p.schedule, a, p.name) !in reg.ids
  }

  /** The outcome is decided before the pass begins: by the resource's own switch first, then by whether its
      schedule was found, then by whether some action cannot be scheduled. */
  lemma ResultIs(valid: string -> bool, reg: Registry, p: Resource, fetched: Option<ScheduleSpec>,
                 result: Result, ops: seq<Op>)
    requires PassOps(valid, reg, p, fetched, result, ops)
    ensures result == Disabled <==> !p.active
    ensures result == ScheduleNotExist <==> p.active && fetched.None?
    ensures result == Failed <==>
            p.active && fetched.Some? && exists a :: CannotSchedule(valid, reg, p, fetched.value, a)
  {
    if p.active && fetched.Some? {
      FailsIff(valid, reg, p, fetched.value, result, ops);
      forall a ensures CannotSchedule(valid, reg, p, fetched.value, a) <==> Refuses(valid, reg, p, fetched.value, a) {}
    }
  }

  // ---------------------------------------------------------------- what is scheduled

  /** The key is still there, under its id and with its entry. */
  ghost predicate KeptAsIs(reg: Registry, reg': Registry, k: Key) {
    && k in reg.ids && k in reg'.ids && reg'.ids[k] == reg.ids[k]
    && reg.ids[k] in reg.entries && reg.ids[k] in reg'.entries && reg'.entries[reg.ids[k]] == reg.entries[reg.ids[k]]
  }

  /** The key is new, at an id that was never used, and runs its own job at the text the schedule gives its action. */
  ghost predicate NewlyThere(reg: Registry, reg': Registry, s: ScheduleSpec, k: Key) {
    && k !in reg.ids && k in reg'.ids && reg'.ids[k] >= reg.next && k.action in s.actions
    && reg'.ids[k] in reg'.entries && reg'.entries[reg'.ids[k]] == Entry(s.actions[k.action].cron, Job(k))
  }

  lemma AddedKey(valid: string -> bool, reg: Registry, p: Resource, fetched: Option<ScheduleSpec>,
                 result: Result, ops: seq<Op>, k: Key)
    requires PassOps(valid, reg, p, fetched, result, ops) && k in AddedBy(ops)
    ensures fetched.Some? && k == p.KeyOf(k.action) && Wants(reg, p, fetched.value, k.action)
    ensures AddedBy(ops)[k] == fetched.value.actions[k.action].cron
  {
    assert Adding(k, AddedBy(ops)[k]) in ops;
  }

  lemma RemovedKey(valid: string -> bool, reg: Registry, p: Resource, fetched: Option<ScheduleSpec>,
                   result: Result, ops: seq<Op>, k: Key)
    requires PassOps(valid, reg, p, fetched, result, ops) && k in reg.ids && k.resource == p.name
    ensures !p.active ==> Removing(k) in ops
    ensures p.active && fetched.None? ==> ops == []
    ensures p.active && fetched.Some? && (k.schedule != p.schedule || k.action !in p.actions) ==> Removing(k) in ops
  {
    if p.active && fetched.Some? && (k.schedule != p.schedule || k.action !in p.actions) {
      assert IsStale(reg, p, k);
    }
  }

  /** After any pass, however it ends, a key of its resource is kept as it was or new or gone. It is gone when the
      resource is disabled, and, in a pass that found the schedule, when it is under another schedule or of an action
      the spec does not name; nothing goes when the schedule was not found. A new key is of an action that the spec
      has active. */
  lemma KeysAfter(valid: string -> bool, reg: Registry, p: Resource, fetched: Option<ScheduleSpec>,
                  result: Result, ops: seq<Op>, k: Key)
    requires Inv(reg) && PassOps(valid, reg, p, fetched, result, ops) && k.resource == p.name
    ensures var reg' := ApplyOps(reg, ops);
            && (k in reg'.ids ==>
                  || KeptAsIs(reg, reg', k)
                  || (fetched.Some? && NewlyThere(reg, reg', fetched.value, k) && k.schedule == p.schedule &&
                      k.action in p.actions && p.actions[k.action]))
            && (!p.active ==> k !in reg'.ids)
            && (p.active && fetched.None? ==> (k in reg'.ids <==> k in reg.ids))
            && (p.active && fetched.Some? && k in reg'.ids ==> k.schedule == p.schedule && k.action in p.actions)
  {
    PassEdits(valid, reg, p, fetched, result, ops);
    OpsEdit(reg, ops);
    if k in AddedBy(ops) {
      AddedKey(valid, reg, p, fetched, result, ops, k);
    } else if k in reg.ids {
      RemovedKey(valid, reg, p, fetched, result, ops, k);
    }
    EditedKey(reg, ApplyOps(reg, ops), RemovedBy(reg, ops), AddedBy(ops), k);
  }

  /** An edit keeps a key as it is, takes it away or adds it anew. */
  lemma EditedKey(reg: Registry, reg': Registry, gone: set<Key>, added: map<Key, string>, k: Key)
    requires Inv(reg') && Edited(reg, reg', gone, added)
    ensures k in added ==> k !in reg.ids && k in reg'.ids && reg'.ids[k] >= reg.next && reg'.ids[k] in reg'.entries
    ensures k in added ==> reg'.entries[reg'.ids[k]] == Entry(added[k], Job(k))
    ensures k !in added && k in reg'.ids ==> KeptAsIs(reg, reg', k) && k !in gone
    ensures k in reg.ids && k !in gone ==> k in reg'.ids
  {
    if k in added {
      assert Renewed(reg, reg', k, added[k]);
      IdBelowNext(reg', k);
    } else if k in reg'.ids {
      assert Same(reg, reg', k);
    }
  }

  // ---------------------------------------------------------------- what the conditions tell

  /** Some entry of the action is under another schedule or of an action that the spec does not name. */
  ghost predicate Outdated(reg: Registry, p: Resource, a: string) {
    exists k :: k in reg.ids && k.resource == p.name && k.action == a && (k.schedule != p.schedule || a !in p.actions)
  }

  /** What is left under an action's type by a pass that has come to it (`seen`) or stopped before: an inactive
      action is called disabled, one that is not scheduled yet is called missing or active, and of the rest an
      outdated one loses its condition and any other keeps it. */
  ghost predicate ActionTold(reg: Registry, p: Resource, s: ScheduleSpec, a: string, seen: bool,
                             before: Option<Condition>, after: Option<Condition>) {
    if seen && a in p.actions && !p.actions[a] then
      after == Some(Condition("Action-" + a, false, "Disabled"))
    else if seen && a in p.actions && Key(p.schedule, a, p.name) !in reg.ids then
      after == Some(if a in s.actions then Condition("Action-" + a, true, "Active")
                    else Condition("Action-" + a, false, "MissingAction"))
    else after == if Outdated(reg, p, a) then None else before
  }

  /** The conditions after a pass, type by type and outcome by outcome. */
  ghost predicate StatusTold(valid: string -> bool, reg: Registry, p: Resource, fetched: Option<ScheduleSpec>,
                             result: Result, cs0: seq<Condition>, cs: seq<Condition>) {
    match result
    case Disabled =>
      && Lookup(cs, "Ready") == Some(Condition("Ready", false, "Disabled"))
      && forall kind :: kind != "Ready" ==> Lookup(cs, kind) == if "Action" <= kind then None else Lookup(cs0, kind)
    case ScheduleNotExist =>
      && Lookup(cs, "Ready") == Some(Condition("Ready", false, "ScheduleNotExist"))
      && forall kind :: kind != "Ready" ==> Lookup(cs, kind) == Lookup(cs0, kind)
    case Done =>
      && fetched.Some?
      && Lookup(cs, "Ready") == Some(Condition("Ready", true, "Active"))
      && (forall kind :: kind != "Ready" && !("Action-" <= kind) ==> Lookup(cs, kind) == Lookup(cs0, kind))
      && forall a :: ActionTold(reg, p, fetched.value, a, true, Lookup(cs0, "Action-" + a), Lookup(cs, "Action-" + a))
    case Failed =>
      && fetched.Some?
      && (forall kind :: !("Action-" <= kind) ==> Lookup(cs, kind) == Lookup(cs0, kind))
      && exists stop, todo :: Stopped(valid, reg, p, fetched.value, cs0, cs, stop, todo)
  }

  /** The pass stopped at an action that it could not schedule, before those of `todo`. */
  ghost predicate Stopped(valid: string -> bool, reg: Registry, p: Resource, s: ScheduleSpec,
                          cs0: seq<Condition>, cs: seq<Condition>, stop: string, todo: set<string>) {
    && CannotSchedule(valid, reg, p, s, stop)
    && Lookup(cs, "Action-" + stop) == Some(Condition("Action-" + stop, false, "Error"))
    && forall a :: a != stop ==>
         ActionTold(reg, p, s, a, a !in todo, Lookup(cs0, "Action-" + a), Lookup(cs, "Action-" + a))
  }

  lemma ActionKind(a: string)
    ensures IsForAction("Action-" + a) && ActionOf("Action-" + a) == a && "Action-" + a != "Ready"
  {
    ForActionInjective(a, a);
    assert ("Action-" + a)[0] == 'A' && "Ready"[0] == 'R';
  }

  /** What the loop over the spec leaves under an action's type. */
  lemma ShownTells(reg: Registry, p: Resource, s: ScheduleSpec, cs0: seq<Condition>, todo: set<string>, a: string)
    ensures ActionTold(reg, p, s, a, a !in todo, Lookup(cs0, "Action-" + a), Shown(reg, p, s, cs0, todo, "Action-" + a))
  {
    ActionKind(a);
    assert Outdated(reg, p, a) <==> Cleared(reg, p, a) by {
      if k :| IsForeign(reg, p, k) && k.action == a {
        assert k in reg.ids && k.resource == p.name;
      }
      if k :| k in reg.ids && k.resource == p.name && k.action == a && (k.schedule != p.schedule || a !in p.actions) {
        assert IsForeign(reg, p, k);
      }
    }
  }

  lemma DoneTells(valid: string -> bool, reg: Registry, p: Resource, s: ScheduleSpec,
                  cs0: seq<Condition>, before: seq<Condition>, cs: seq<Condition>)
    requires ShowsAll(reg, p, s, cs0, {}, before) && With(cs, Condition(READY, true, "Active"), before)
    ensures StatusTold(valid, reg, p, Some(s), Done, cs0, cs)
  {
    forall a ensures ActionTold(reg, p, s, a, true, Lookup(cs0, "Action-" + a), Lookup(cs, "Action-" + a)) {
      ActionKind(a);
      ShownTells(reg, p, s, cs0, {}, a);
    }
  }

  lemma StoppedTells(valid: string -> bool, reg: Registry, p: Resource, s: ScheduleSpec, ops: seq<Op>,
                     cs0: seq<Condition>, cs: seq<Condition>, stop: string, todo: set<string>)
    requires FailedReport(valid, reg, p, s, ops, cs0, cs, stop, todo)
    ensures StatusTold(valid, reg, p, Some(s), Failed, cs0, cs)
  {
    ActionKind(stop);
    forall a | a != stop
      ensures ActionTold(reg, p, s, a, a !in todo, Lookup(cs0, "Action-" + a), Lookup(cs, "Action-" + a))
    {
      ForActionInjective(a, stop);
      ShownTells(reg, p, s, cs0, todo, a);
    }
    assert Stopped(valid, reg, p, s, cs0, cs, stop, todo);
  }

  /** What a pass reports is what its conditions are meant to tell. */
  lemma StatusTells(valid: string -> bool, reg: Registry, p: Resource, fetched: Option<ScheduleSpec>,
                    result: Result, ops: seq<Op>, cs0: seq<Condition>, cs: seq<Condition>)
    requires PassReports(valid, reg, p, fetched, result, ops, cs0, cs)
    ensures StatusTold(valid, reg, p, fetched, result, cs0, cs)
  {
    match result
    case Disabled =>
    case ScheduleNotExist =>
    case Done =>
      var before :| ShowsAll(reg, p, fetched.value, cs0, {}, before) &&
                    With(cs, Condition(READY, true, "Active"), before);
      DoneTells(valid, reg, p, fetched.value, cs0, before, cs);
    case Failed =>
      var stop, todo :| FailedReport(valid, reg, p, fetched.value, ops, cs0, cs, stop, todo);
      StoppedTells(valid, reg, p, fetched.value, ops, cs0, cs, stop, todo);
  }
}
