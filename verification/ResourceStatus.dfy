/** What a resource's conditions tell about its entries in the registry. */
module ResourceStatus {
  import opened Base
  import opened CronRegistry
  import opened Conditions
  import opened ResourcePass
  import opened RegistryRuns
  import SchedulePass

  function Active(action: string): Condition {
    Condition(ForAction(action), true, "Active")
  }

  /** The action is scheduled for the resource, under some schedule. */
  ghost predicate IsScheduled(reg: Registry, resource: string, action: string) {
    exists k :: k in reg.ids && k.resource == resource && k.action == action
  }

  /** The conditions call the action active. */
  predicate Says(cs: seq<Condition>, action: string) {
    Lookup(cs, ForAction(action)) == Some(Active(action))
  }

  /** They do so exactly when the action is scheduled. */
  ghost predicate TrueOf(reg: Registry, resource: string, cs: seq<Condition>, action: string) {
    Says(cs, action) <==> IsScheduled(reg, resource, action)
  }

  ghost predicate Truthful(reg: Registry, resource: string, cs: seq<Condition>) {
    forall a :: TrueOf(reg, resource, cs, a)
  }

  /** After a pass over an active resource whose schedule was fetched: which of its actions are scheduled. */
  lemma ScheduledAfter(valid: string -> bool, reg: Registry, p: Resource, s: ScheduleSpec, todo: set<string>,
                       ops: seq<Op>, a: string)
    requires Inv(reg) && todo <= p.actions.Keys && Progress(valid, reg, p, s, todo, ops)
    ensures IsScheduled(ApplyOps(reg, ops), p.name, a) <==>
            && a in p.actions
            && (a in todo || p.actions[a])
            && (p.KeyOf(a) in reg.ids || (a !in todo && p.actions[a] && a in s.actions))
  {
    var reg' := ApplyOps(reg, ops);
    forall k: Key | k.resource == p.name && k.action == a ensures k in reg'.ids ==> k == p.KeyOf(a) {
      OnlyCurrent(valid, reg, p, s, todo, ops, k);
    }
    assert IsScheduled(reg', p.name, a) <==> p.KeyOf(a) in reg'.ids;
    KeyAfter(valid, reg, p, s, todo, ops, a);
  }

  lemma OnlyCurrent(valid: string -> bool, reg: Registry, p: Resource, s: ScheduleSpec, todo: set<string>,
                    ops: seq<Op>, k: Key)
    requires Inv(reg) && Progress(valid, reg, p, s, todo, ops) && k.resource == p.name
    ensures k in ApplyOps(reg, ops).ids ==> k == p.KeyOf(k.action)
  {
    OpsEdit(reg, ops);
    if k in reg.ids && k.schedule != p.schedule {
      assert IsStale(reg, p, k) && Removing(k) in ops;
    }
    if k in AddedBy(ops) {
      assert Adding(k, AddedBy(ops)[k]) in ops;
    }
  }

  lemma KeyAfter(valid: string -> bool, reg: Registry, p: Resource, s: ScheduleSpec, todo: set<string>,
                 ops: seq<Op>, a: string)
    requires Inv(reg) && todo <= p.actions.Keys && Progress(valid, reg, p, s, todo, ops)
    ensures p.KeyOf(a) in ApplyOps(reg, ops).ids <==>
            && a in p.actions
            && (a in todo || p.actions[a])
            && (p.KeyOf(a) in reg.ids || (a !in todo && p.actions[a] && a in s.actions))
  {
    OpsEdit(reg, ops);
    var k := p.KeyOf(a);
    if k in reg.ids {
      assert k in RemovedBy(reg, ops) <==> Unsupported(p, k) && a !in todo by {
        assert IsStale(reg, p, k) <==> Unsupported(p, k);
      }
    } else {
      AddedIff(valid, reg, p, s, todo, ops, k);
    }
  }

  lemma AddedIff(valid: string -> bool, reg: Registry, p: Resource, s: ScheduleSpec, todo: set<string>,
                 ops: seq<Op>, k: Key)
    requires Progress(valid, reg, p, s, todo, ops)
    ensures k in AddedBy(ops) <==> k in Wanted(reg, p, s) && k.action !in todo
  {
    if k in AddedBy(ops) {
      assert Adding(k, AddedBy(ops)[k]) in ops;
    }
    if k in Wanted(reg, p, s) && k.action !in todo {
      assert Adding(k, Wanted(reg, p, s)[k]) in ops;
    }
  }

  // ---------------------------------------------------------------- what a pass says of an action

  lemma ClearedIff(reg: Registry, p: Resource, a: string)
    requires OneSchedule(reg)
    ensures Cleared(reg, p, a) <==> IsScheduled(reg, p.name, a) && (a !in p.actions || p.KeyOf(a) !in reg.ids)
    ensures p.KeyOf(a) in reg.ids ==> IsScheduled(reg, p.name, a)
  {
    if IsScheduled(reg, p.name, a) && (a !in p.actions || p.KeyOf(a) !in reg.ids) {
      var k :| k in reg.ids && k.resource == p.name && k.action == a;
      assert k.schedule == p.schedule ==> k == p.KeyOf(a);
      assert IsForeign(reg, p, k);
    }
  }

  lemma NotReady(a: string)
    ensures ForAction(a) != READY && "Action" <= ForAction(a)
  {
    assert ForAction(a)[0] != READY[0];
    assert PREFIX <= ForAction(a);
  }

  /** The loop over the spec leaves the action's condition alone: the spec does not name the action, or its
      turn has not come, or it is active and scheduled already; and no stale entry of it was removed. */
  ghost predicate Unsaid(reg: Registry, p: Resource, todo: set<string>, a: string) {
    && !Cleared(reg, p, a)
    && (a !in p.actions || a in todo || (p.actions[a] && p.KeyOf(a) in reg.ids))
  }

  /** The pass leaves the action's condition alone. A failed one stopped at `stop` with `todo` to come. */
  ghost predicate Silent(reg: Registry, p: Resource, result: Result, stop: string, todo: set<string>, a: string) {
    match result
    case Disabled => false
    case ScheduleNotExist => true
    case Done => Unsaid(reg, p, {}, a)
    case Failed => a != stop && Unsaid(reg, p, todo, a)
  }

  /** The conditions of a pass, with the point at which a failed one stopped. */
  ghost predicate ReportsAt(valid: string -> bool, reg: Registry, p: Resource, fetched: Option<ScheduleSpec>,
                            result: Result, ops: seq<Op>, cs0: seq<Condition>, cs: seq<Condition>,
                            stop: string, todo: set<string>) {
    if result == Failed then fetched.Some? && FailedReport(valid, reg, p, fetched.value, ops, cs0, cs, stop, todo)
    else PassReports(valid, reg, p, fetched, result, ops, cs0, cs)
  }

  /** What the loop leaves under an action's type: the truth, or what was there about an action whose entries it
      did not change. */
  lemma ShownOf(valid: string -> bool, reg: Registry, p: Resource, s: ScheduleSpec, todo: set<string>,
                ops: seq<Op>, cs0: seq<Condition>, a: string)
    requires Inv(reg) && OneSchedule(reg) && todo <= p.actions.Keys && Progress(valid, reg, p, s, todo, ops)
    ensures Unsaid(reg, p, todo, a) ==>
              && Shown(reg, p, s, cs0, todo, ForAction(a)) == Lookup(cs0, ForAction(a))
              && (IsScheduled(ApplyOps(reg, ops), p.name, a) <==> IsScheduled(reg, p.name, a))
    ensures !Unsaid(reg, p, todo, a) ==>
              (Shown(reg, p, s, cs0, todo, ForAction(a)) == Some(Active(a)) <==>
               IsScheduled(ApplyOps(reg, ops), p.name, a))
  {
    ScheduledAfter(valid, reg, p, s, todo, ops, a);
    ForActionInjective(a, a);
    ClearedIff(reg, p, a);
  }

  /** A pass whose write is taken leaves the condition of an action true if and only if it was true before or
      the pass speaks of the action. */
  lemma TrueIffSpoken(valid: string -> bool, reg: Registry, p: Resource, fetched: Option<ScheduleSpec>,
                      result: Result, ops: seq<Op>, cs0: seq<Condition>, cs: seq<Condition>,
                      stop: string, todo: set<string>, a: string)
    requires Inv(reg) && OneSchedule(reg) && PassOps(valid, reg, p, fetched, result, ops)
    requires ReportsAt(valid, reg, p, fetched, result, ops, cs0, cs, stop, todo)
    ensures TrueOf(ApplyOps(reg, ops), p.name, cs, a) <==>
            TrueOf(reg, p.name, cs0, a) || !Silent(reg, p, result, stop, todo, a)
  {
    NotReady(a);
    match result
    case Disabled =>
      forall k ensures k in ApplyOps(reg, ops).ids ==> k.resource != p.name {
        ResourceGone(reg, p.name, ops, k);
      }
    case ScheduleNotExist =>
    case Done => ShownOf(valid, reg, p, fetched.value, {}, ops, cs0, a);
    case Failed => SpokenOnFailure(valid, reg, p, fetched.value, ops, cs0, cs, stop, todo, a);
  }

  lemma SpokenOnFailure(valid: string -> bool, reg: Registry, p: Resource, s: ScheduleSpec, ops: seq<Op>,
                        cs0: seq<Condition>, cs: seq<Condition>, stop: string, todo: set<string>, a: string)
    requires Inv(reg) && OneSchedule(reg) && FailedReport(valid, reg, p, s, ops, cs0, cs, stop, todo)
    ensures TrueOf(ApplyOps(reg, ops), p.name, cs, a) <==>
            TrueOf(reg, p.name, cs0, a) || !Silent(reg, p, Failed, stop, todo, a)
  {
    ForActionInjective(a, stop);
    ShownOf(valid, reg, p, s, todo, ops, cs0, a);
    ScheduledAfter(valid, reg, p, s, todo, ops, a);
  }

  lemma StoppingPoint(valid: string -> bool, reg: Registry, p: Resource, fetched: Option<ScheduleSpec>,
                      result: Result, ops: seq<Op>, cs0: seq<Condition>, cs: seq<Condition>)
    returns (stop: string, todo: set<string>)
    requires PassReports(valid, reg, p, fetched, result, ops, cs0, cs)
    ensures ReportsAt(valid, reg, p, fetched, result, ops, cs0, cs, stop, todo)
  {
    stop, todo := "", {};
    if result == Failed {
      stop, todo :| FailedReport(valid, reg, p, fetched.value, ops, cs0, cs, stop, todo);
    }
  }

  /** Every pass, however it ends, keeps the conditions truthful when they were so and its write is taken. */
  lemma TruthfulKept(valid: string -> bool, reg: Registry, p: Resource, fetched: Option<ScheduleSpec>,
                     result: Result, ops: seq<Op>, cs0: seq<Condition>, cs: seq<Condition>)
    requires Inv(reg) && OneSchedule(reg) && Truthful(reg, p.name, cs0)
    requires PassOps(valid, reg, p, fetched, result, ops)
    requires PassReports(valid, reg, p, fetched, result, ops, cs0, cs)
    ensures Truthful(ApplyOps(reg, ops), p.name, cs)
  {
    var stop, todo := StoppingPoint(valid, reg, p, fetched, result, ops, cs0, cs);
    forall a ensures TrueOf(ApplyOps(reg, ops), p.name, cs, a) {
      TrueIffSpoken(valid, reg, p, fetched, result, ops, cs0, cs, stop, todo, a);
    }
  }

  /** A pass that is not about the resource leaves its actions scheduled as they were. */
  lemma OthersScheduled(valid: string -> bool, reg: Registry, pass: Pass, resource: string, a: string)
    requires Inv(reg) && Permits(valid, reg, pass)
    requires pass.OfResource? ==> pass.p.name != resource
    requires pass.OfDeleted? ==> pass.resource != resource
    ensures IsScheduled(ApplyOps(reg, pass.ops), resource, a) <==> IsScheduled(reg, resource, a)
  {
    var reg' := ApplyOps(reg, pass.ops);
    forall k: Key | k.resource == resource ensures k in reg'.ids <==> k in reg.ids {
      match pass
      case OfResource(p, fetched, result, ops) => OtherResourcesKept(valid, reg, p, fetched, result, ops, k);
      case OfSchedule(name, s, ops) =>
        PassRefreshOps(valid, reg, name, s, ops);
        OpsRefresh(reg, ops, SchedulePass.Due(reg.ids, name, s));
      case OfDeleted(r, ops) => ResourceGone(reg, r, ops, k);
    }
  }

  // ---------------------------------------------------------------- repeated and lost passes

  lemma DoneShows(valid: string -> bool, reg: Registry, p: Resource, s: ScheduleSpec, ops: seq<Op>,
                  cs0: seq<Condition>, cs: seq<Condition>, kind: string)
    requires PassReports(valid, reg, p, Some(s), Done, ops, cs0, cs)
    ensures Lookup(cs, kind) == if kind == READY then Some(Condition(READY, true, "Active"))
                                else Shown(reg, p, s, cs0, {}, kind)
  {
  }

  lemma NothingCleared(valid: string -> bool, reg: Registry, p: Resource, s: ScheduleSpec, ops: seq<Op>, a: string)
    requires Inv(reg) && PassOps(valid, reg, p, Some(s), Done, ops)
    ensures !Cleared(ApplyOps(reg, ops), p, a)
  {
    forall k ensures !IsForeign(ApplyOps(reg, ops), p, k) {
      if k.resource == p.name {
        DoneSchedules(valid, reg, p, s, ops, k);
      }
    }
  }

  /** A second pass with the same inputs leaves every condition as the first one set it. */
  lemma ConditionsSettle(valid: string -> bool, reg: Registry, p: Resource, s: ScheduleSpec, ops: seq<Op>,
                         again: seq<Op>, cs0: seq<Condition>, cs1: seq<Condition>, cs2: seq<Condition>, kind: string)
    requires Inv(reg) && PassOps(valid, reg, p, Some(s), Done, ops)
    requires PassReports(valid, reg, p, Some(s), Done, ops, cs0, cs1)
    requires PassReports(valid, ApplyOps(reg, ops), p, Some(s), Done, again, cs1, cs2)
    ensures Lookup(cs2, kind) == Lookup(cs1, kind)
  {
    DoneShows(valid, reg, p, s, ops, cs0, cs1, kind);
    DoneShows(valid, ApplyOps(reg, ops), p, s, again, cs1, cs2, kind);
    if IsForAction(kind) {
      NothingCleared(valid, reg, p, s, ops, ActionOf(kind));
      DoneSchedules(valid, reg, p, s, ops, p.KeyOf(ActionOf(kind)));
    }
  }

  /** Of an action that is scheduled by then, a repeated pass says nothing. */
  lemma LostStatusStays(valid: string -> bool, reg: Registry, p: Resource, s: ScheduleSpec, ops: seq<Op>,
                        again: seq<Op>, cs0: seq<Condition>, cs: seq<Condition>, a: string)
    requires Inv(reg) && PassOps(valid, reg, p, Some(s), Done, ops) && p.KeyOf(a) in ApplyOps(reg, ops).ids
    requires PassReports(valid, ApplyOps(reg, ops), p, Some(s), Done, again, cs0, cs)
    ensures Lookup(cs, ForAction(a)) == Lookup(cs0, ForAction(a))
  {
    NotReady(a);
    ForActionInjective(a, a);
    DoneShows(valid, ApplyOps(reg, ops), p, s, again, cs0, cs, ForAction(a));
    NothingCleared(valid, reg, p, s, ops, a);
    DoneSchedules(valid, reg, p, s, ops, p.KeyOf(a));
  }

  /** When the status write of a pass is lost and the pass is repeated, the condition of an action that was true
      is true again if and only if the lost pass did not schedule the action for the first time, and did not
      drop it because the spec no longer names it: of the former the repetition has nothing to say, and of the
      latter it no longer knows. */
  lemma LostPassIff(valid: string -> bool, reg: Registry, p: Resource, s: ScheduleSpec, ops: seq<Op>,
                    again: seq<Op>, cs0: seq<Condition>, cs: seq<Condition>, a: string)
    requires Inv(reg) && OneSchedule(reg) && PassOps(valid, reg, p, Some(s), Done, ops)
    requires PassOps(valid, ApplyOps(reg, ops), p, Some(s), Done, again)
    requires PassReports(valid, ApplyOps(reg, ops), p, Some(s), Done, again, cs0, cs)
    requires TrueOf(reg, p.name, cs0, a)
    ensures TrueOf(ApplyOps(ApplyOps(reg, ops), again), p.name, cs, a) <==>
            && (IsScheduled(ApplyOps(reg, ops), p.name, a) ==> IsScheduled(reg, p.name, a))
            && (IsScheduled(reg, p.name, a) ==> a in p.actions)
  {
    var reg1 := ApplyOps(reg, ops);
    PassKeeps(valid, reg, OfResource(p, Some(s), Done, ops));
    TrueIffSpoken(valid, reg1, p, Some(s), Done, again, cs0, cs, "", {}, a);
    NothingCleared(valid, reg, p, s, ops, a);
    ScheduledAfter(valid, reg, p, s, {}, ops, a);
    DoneSchedules(valid, reg, p, s, ops, p.KeyOf(a));
  }

  /** An operator that starts anew knows no entries but finds the conditions of its predecessor. After its first
      pass over a resource the condition of an action is true if and only if the spec names the action or the
      condition did not call it active. */
  lemma RestartIff(valid: string -> bool, p: Resource, s: ScheduleSpec, ops: seq<Op>,
                   cs0: seq<Condition>, cs: seq<Condition>, a: string)
    requires PassOps(valid, Empty, p, Some(s), Done, ops)
    requires PassReports(valid, Empty, p, Some(s), Done, ops, cs0, cs)
    ensures TrueOf(ApplyOps(Empty, ops), p.name, cs, a) <==> a in p.actions || !Says(cs0, a)
  {
    EmptyInv();
    TrueIffSpoken(valid, Empty, p, Some(s), Done, ops, cs0, cs, "", {}, a);
    assert !IsScheduled(Empty, p.name, a);
    ClearedIff(Empty, p, a);
  }

  /** What a job reports about its action when it has run. */
  function JobReport(action: string, ok: bool): Condition {
    Condition(ForAction(action), ok, if ok then "Active" else "Failed")
  }

  /** The report of a job leaves its action's condition true if and only if it reports success of a scheduled
      action or failure of one that is no longer scheduled; other conditions it does not touch. */
  lemma JobReportIff(reg: Registry, resource: string, cs: seq<Condition>, action: string, ok: bool, a: string)
    ensures TrueOf(reg, resource, Set(cs, JobReport(action, ok)), a) <==>
            if a == action then ok == IsScheduled(reg, resource, a) else TrueOf(reg, resource, cs, a)
    ensures Lookup(Set(cs, JobReport(action, ok)), "Action-" + action) ==
            Some(Condition("Action-" + action, ok, if ok then "Active" else "Failed"))
  {
    SetLookup(cs, JobReport(action, ok), "Action-" + action);
    SetLookup(cs, JobReport(action, ok), ForAction(a));
    ForActionInjective(a, action);
  }
}
