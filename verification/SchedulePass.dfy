/** One reconcile pass over a schedule: its conditions and the refresh of its live entries. */
module SchedulePass {
  import opened Base
  import opened CronRegistry
  import opened CronService
  import opened Conditions
  import opened ResourcePass

  predicate PeriodsValid(periods: seq<Period>) {
    forall i :: 0 <= i < |periods| ==> periods[i].start <= periods[i].end
  }

  predicate CronsValid(valid: string -> bool, s: ScheduleSpec) {
    forall a :: a in s.actions ==> valid(s.actions[a].cron)
  }

  /** The condition a pass reports for one action of the spec. */
  function Reported(valid: string -> bool, s: ScheduleSpec, action: string): Condition
    requires action in s.actions
  {
    if !valid(s.actions[action].cron) then Condition(ForAction(action), false, "InvalidCronExpression")
    else if !s.actions[action].active then Condition(ForAction(action), false, "NotActive")
    else Condition(ForAction(action), true, "Active")
  }

  /** Some live entry of the schedule uses an action that its spec does not define. */
  ghost predicate Dropped(ids: map<Key, int>, name: string, s: ScheduleSpec) {
    exists k :: k in ids && k.schedule == name && k.action !in s.actions
  }

  /** The entries to refresh, with the cron text the spec gives their action. */
  ghost function Due(ids: map<Key, int>, name: string, s: ScheduleSpec): map<Key, string> {
    map k | k in ids && k.schedule == name && k.action in s.actions :: s.actions[k.action].cron
  }

  method AllPeriodsValid(periods: seq<Period>) returns (ok: bool)
    ensures ok == PeriodsValid(periods)
  {
    ok := true;
    for i := 0 to |periods|
      invariant ok == PeriodsValid(periods[..i])
    {
      if periods[i].start > periods[i].end {
        ok := false;
      }
    }
  }

  /** The loop over the spec's actions: one condition each. */
  method ReportActions(valid: string -> bool, s: ScheduleSpec, cs0: seq<Condition>)
    returns (cs: seq<Condition>, invalid: bool)
    ensures Unique(cs0) ==> Unique(cs)
    ensures invalid == !CronsValid(valid, s)
    ensures forall kind :: Lookup(cs, kind) ==
              if IsForAction(kind) && ActionOf(kind) in s.actions then Some(Reported(valid, s, ActionOf(kind)))
              else Lookup(cs0, kind)
  {
    cs, invalid := cs0, false;
    var todo := s.actions.Keys;
    while todo != {}
      invariant (Unique(cs0) ==> Unique(cs)) && todo <= s.actions.Keys
      invariant invalid == exists a :: a in s.actions && a !in todo && !valid(s.actions[a].cron)
      invariant forall kind :: Lookup(cs, kind) ==
                  if IsForAction(kind) && ActionOf(kind) in s.actions && ActionOf(kind) !in todo
                  then Some(Reported(valid, s, ActionOf(kind))) else Lookup(cs0, kind)
      decreases todo
    {
      var a :| a in todo;
      var c := Reported(valid, s, a);
      if !valid(s.actions[a].cron) {
        invalid := true;
      }
      forall kind ensures Lookup(Set(cs, c), kind) == if kind == c.kind then Some(c) else Lookup(cs, kind) {
        SetLookup(cs, c, kind);
      }
      if Unique(cs) {
        SetUnique(cs, c);
      }
      forall b ensures ForAction(b) == ForAction(a) ==> b == a {
        ForActionInjective(a, b);
      }
      ForActionInjective(a, a);
      cs := Set(cs, c);
      todo := todo - {a};
    }
  }

  /** Prunes the conditions of actions that the spec no longer defines. */
  method RemoveMissingActions(cs0: seq<Condition>, actions: set<string>) returns (cs: seq<Condition>)
    ensures Unique(cs0) ==> Unique(cs)
    ensures forall kind :: Lookup(cs, kind) ==
              if IsForAction(kind) && ActionOf(kind) !in actions then None else Lookup(cs0, kind)
  {
    ghost var keep := (kind: string) => !IsForAction(kind) || ActionOf(kind) in actions;
    cs := [];
    for i := 0 to |cs0|
      invariant cs == Filter(cs0[..i], keep)
    {
      assert cs0[..i + 1][..i] == cs0[..i];
      if !IsForAction(cs0[i].kind) || ActionOf(cs0[i].kind) in actions {
        cs := cs + [cs0[i]];
      }
    }
    assert cs0[..|cs0|] == cs0;
    FilterUnique(cs0, keep);
    forall kind ensures Lookup(cs, kind) ==
        if IsForAction(kind) && ActionOf(kind) !in actions then None else Lookup(cs0, kind)
    {
      FilterLookup(cs0, keep, kind);
    }
  }

  lemma RefreshOpsAppend(reg: Registry, ops: seq<Op>, specs: map<Key, string>, k: Key)
    requires RefreshOps(reg, ops, specs) && k in specs && k in reg.ids && Refreshing(k, specs[k]) !in ops
    ensures RefreshOps(reg, ops + [Refreshing(k, specs[k])], specs)
  {
    var all := ops + [Refreshing(k, specs[k])];
    forall i, j | 0 <= i < j < |all| ensures all[i].key != all[j].key {
      if j == |ops| {
        assert ops[i] in ops && ops[i] == Refreshing(ops[i].key, specs[ops[i].key]);
      }
    }
  }

  /** The inner loop: refreshes the entries of one action. */
  method RefreshAction(svc: ScheduleService, name: string, a: string, cron: string, resources: set<string>,
                       ghost reg0: Registry, ghost specs: map<Key, string>, ghost ops0: seq<Op>)
    returns (ghost ops: seq<Op>)
    requires svc.Valid() && svc.valid(cron)
    requires svc.Registry() == ApplyOps(reg0, ops0) && RefreshOps(reg0, ops0, specs)
    requires forall r :: r in resources ==>
               var k := Key(name, a, r); k in reg0.ids && k in specs && specs[k] == cron && Refreshing(k, cron) !in ops0
    modifies svc
    ensures svc.Valid() && svc.Registry() == ApplyOps(reg0, ops) && RefreshOps(reg0, ops, specs)
    ensures forall k, spec :: Refreshing(k, spec) in ops <==>
              Refreshing(k, spec) in ops0 || (spec == cron && k == Key(name, a, k.resource) && k.resource in resources)
  {
    ops := ops0;
    var rest := resources;
    while rest != {}
      invariant svc.Valid() && rest <= resources
      invariant svc.Registry() == ApplyOps(reg0, ops) && RefreshOps(reg0, ops, specs)
      invariant forall k, spec :: Refreshing(k, spec) in ops <==>
                  Refreshing(k, spec) in ops0 ||
                  (spec == cron && k == Key(name, a, k.resource) && k.resource in resources && k.resource !in rest)
      decreases rest
    {
      var r :| r in rest;
      var k := Key(name, a, r);
      RefreshOpsAppend(reg0, ops, specs, k);
      ApplyOpsSnoc(reg0, ops, Refreshing(k, cron));
      var _ := svc.UpdateCronSpec(k, cron);
      ops := ops + [Refreshing(k, cron)];
      rest := rest - {r};
    }
  }

  /** The loop over the live entries has refreshed exactly those of the actions outside `todo`, and met no
      dropped action among them. */
  ghost predicate RefreshedBut(reg: Registry, name: string, s: ScheduleSpec, todo: set<string>, ops: seq<Op>) {
    var due := Due(reg.ids, name, s);
    && RefreshOps(reg, ops, due)
    && (forall k, spec :: Refreshing(k, spec) in ops <==> k in due && spec == due[k] && k.action !in todo)
    && (forall k :: k in reg.ids && k.schedule == name && k.action !in todo ==> k.action in s.actions)
  }

  lemma RefreshedStart(reg: Registry, name: string, s: ScheduleSpec, todo: set<string>)
    requires forall k :: k in reg.ids && k.schedule == name ==> k.action in todo
    ensures RefreshedBut(reg, name, s, todo, [])
  {
  }

  lemma RefreshedNext(reg: Registry, name: string, s: ScheduleSpec, todo: set<string>, ops0: seq<Op>,
                      a: string, resources: set<string>, ops: seq<Op>)
    requires RefreshedBut(reg, name, s, todo, ops0) && a in todo && a in s.actions
    requires forall r :: r in resources <==> Key(name, a, r) in reg.ids
    requires RefreshOps(reg, ops, Due(reg.ids, name, s))
    requires forall k, spec :: Refreshing(k, spec) in ops <==>
               || Refreshing(k, spec) in ops0
               || (spec == s.actions[a].cron && k == Key(name, a, k.resource) && k.resource in resources)
    ensures RefreshedBut(reg, name, s, todo - {a}, ops)
  {
    var due := Due(reg.ids, name, s);
    forall k, spec ensures Refreshing(k, spec) in ops <==> k in due && spec == due[k] && k.action !in todo - {a} {
      assert k == Key(k.schedule, k.action, k.resource);
    }
  }

  lemma RefreshedAll(reg: Registry, name: string, s: ScheduleSpec, ops: seq<Op>)
    requires RefreshedBut(reg, name, s, {}, ops)
    ensures !Dropped(reg.ids, name, s)
  {
  }

  /** The loop over the live entries: refreshes them until it meets an action the spec dropped. */
  method RefreshEntries(svc: ScheduleService, name: string, s: ScheduleSpec) returns (missing: bool, ghost ops: seq<Op>)
    requires svc.Valid() && CronsValid(svc.valid, s)
    modifies svc
    ensures svc.Valid() && svc.Registry() == ApplyOps(old(svc.Registry()), ops)
    ensures missing <==> Dropped(old(svc.ids), name, s)
    ensures missing ==> exists todo :: RefreshedBut(old(svc.Registry()), name, s, todo, ops)
    ensures !missing ==> RefreshedBut(old(svc.Registry()), name, s, {}, ops)
  {
    ops := [];
    ghost var reg0 := svc.Registry();
    var actions := svc.GetActions(name);
    assert forall k :: k in reg0.ids && k.schedule == name ==> Key(name, k.action, k.resource) == k;
    var todo := actions.Keys;
    RefreshedStart(reg0, name, s, todo);
    while todo != {}
      invariant svc.Valid() && svc.Registry() == ApplyOps(reg0, ops) && todo <= actions.Keys
      invariant RefreshedBut(reg0, name, s, todo, ops)
      decreases todo
    {
      var a :| a in todo;
      if a !in s.actions {
        if actions[a].Keys != {} {
          var r :| r in actions[a].Keys;
          assert Key(name, a, r) in reg0.ids;
          return true, ops;
        }
      } else {
        ghost var before := ops;
        ops := RefreshAction(svc, name, a, s.actions[a].cron, actions[a].Keys, reg0, Due(reg0.ids, name, s), ops);
        RefreshedNext(reg0, name, s, todo, before, a, actions[a].Keys, ops);
      }
      todo := todo - {a};
    }
    missing := false;
    RefreshedAll(reg0, name, s, ops);
  }

  /** The Ready condition that a pass reports. */
  ghost function Ready(valid: string -> bool, ids: map<Key, int>, name: string, s: ScheduleSpec): Condition {
    if !PeriodsValid(s.activePeriods) || !PeriodsValid(s.inactivePeriods) then Condition(READY, false, "InvalidPeriod")
    else if !CronsValid(valid, s) then Condition(READY, false, "InvalidCronExpression")
    else if Dropped(ids, name, s) then Condition(READY, false, "MissingAction")
    else if !s.active then Condition(READY, false, "Disabled")
    else Condition(READY, true, "Active")
  }

  /** What the pass leaves under each condition type. */
  ghost function Reports(valid: string -> bool, ids: map<Key, int>, name: string, s: ScheduleSpec,
                         cs: seq<Condition>, kind: string): Option<Condition> {
    if kind == READY then Some(Ready(valid, ids, name, s))
    else if !PeriodsValid(s.activePeriods) || !PeriodsValid(s.inactivePeriods) || !IsForAction(kind) then
      Lookup(cs, kind)
    else if ActionOf(kind) in s.actions then Some(Reported(valid, s, ActionOf(kind)))
    else None
  }

  predicate SpecValid(valid: string -> bool, s: ScheduleSpec) {
    PeriodsValid(s.activePeriods) && PeriodsValid(s.inactivePeriods) && CronsValid(valid, s)
  }

  /** The refreshes of a pass: none over an invalid spec; all that are due, or, when an action was dropped,
      those of the actions that the loop met before it. */
  ghost predicate PassRefreshes(valid: string -> bool, reg: Registry, name: string, s: ScheduleSpec, ops: seq<Op>) {
    if !SpecValid(valid, s) then ops == []
    else if Dropped(reg.ids, name, s) then exists todo :: RefreshedBut(reg, name, s, todo, ops)
    else RefreshedBut(reg, name, s, {}, ops)
  }

  // ---------------------------------------------------------------- what the conditions tell

  /** The condition of an action that the spec defines: true exactly when its cron text is valid and it is active,
      with the reason that says why. */
  ghost predicate ActionTold(valid: string -> bool, s: ScheduleSpec, action: string, c: Option<Condition>)
    requires action in s.actions
  {
    var sound, active := valid(s.actions[action].cron), s.actions[action].active;
    && c.Some? && c.value.kind == "Action-" + action
    && (c.value.status <==> sound && active)
    && (c.value.reason == "InvalidCronExpression" <==> !sound)
    && (c.value.reason == "NotActive" <==> sound && !active)
    && (c.value.reason == "Active" <==> sound && active)
  }

  /** Some period ends before it starts. */
  ghost predicate SomeInverted(s: ScheduleSpec) {
    exists p :: (p in s.activePeriods || p in s.inactivePeriods) && p.start > p.end
  }

  ghost predicate SomeInvalid(valid: string -> bool, s: ScheduleSpec) {
    exists a :: a in s.actions && !valid(s.actions[a].cron)
  }

  /** The conditions after a pass, type by type: the first obstacle in this order decides the Ready condition; over
      valid periods each action of the spec has its condition and no other action has one; the rest stays. */
  ghost predicate StatusTold(valid: string -> bool, ids: map<Key, int>, name: string, s: ScheduleSpec,
                             cs0: seq<Condition>, cs: seq<Condition>) {
    var dropped := exists k :: k in ids && k.schedule == name && k.action !in s.actions;
    && Lookup(cs, "Ready") ==
       Some(Condition("Ready", !SomeInverted(s) && !SomeInvalid(valid, s) && !dropped && s.active,
                      if SomeInverted(s) then "InvalidPeriod"
                      else if SomeInvalid(valid, s) then "InvalidCronExpression"
                      else if dropped then "MissingAction"
                      else if s.active then "Active" else "Disabled"))
    && (!SomeInverted(s) ==> forall a :: a in s.actions ==> ActionTold(valid, s, a, Lookup(cs, "Action-" + a)))
    && (!SomeInverted(s) ==> forall a :: a !in s.actions ==> Lookup(cs, "Action-" + a).None?)
    && (forall kind :: kind != "Ready" && (SomeInverted(s) || !("Action-" <= kind)) ==>
          Lookup(cs, kind) == Lookup(cs0, kind))
  }

  lemma InvertedIff(s: ScheduleSpec)
    ensures SomeInverted(s) <==> !PeriodsValid(s.activePeriods) || !PeriodsValid(s.inactivePeriods)
  {
    if !PeriodsValid(s.activePeriods) {
      var i :| 0 <= i < |s.activePeriods| && s.activePeriods[i].start > s.activePeriods[i].end;
      assert s.activePeriods[i] in s.activePeriods;
    }
    if !PeriodsValid(s.inactivePeriods) {
      var i :| 0 <= i < |s.inactivePeriods| && s.inactivePeriods[i].start > s.inactivePeriods[i].end;
      assert s.inactivePeriods[i] in s.inactivePeriods;
    }
  }

  lemma ActionKind(a: string)
    ensures IsForAction("Action-" + a) && ActionOf("Action-" + a) == a && "Action-" + a != "Ready"
  {
    ForActionInjective(a, a);
    assert ("Action-" + a)[0] == 'A' && "Ready"[0] == 'R';
  }

  lemma ActionTells(valid: string -> bool, ids: map<Key, int>, name: string, s: ScheduleSpec,
                    cs0: seq<Condition>, a: string)
    requires !SomeInverted(s)
    ensures a in s.actions ==> ActionTold(valid, s, a, Reports(valid, ids, name, s, cs0, "Action-" + a))
    ensures a !in s.actions ==> Reports(valid, ids, name, s, cs0, "Action-" + a).None?
  {
    InvertedIff(s);
    ActionKind(a);
  }

  /** What a pass reports is what its conditions are meant to tell. */
  lemma StatusTells(valid: string -> bool, ids: map<Key, int>, name: string, s: ScheduleSpec,
                    cs0: seq<Condition>, cs: seq<Condition>)
    requires forall kind :: Lookup(cs, kind) == Reports(valid, ids, name, s, cs0, kind)
    ensures StatusTold(valid, ids, name, s, cs0, cs)
  {
    InvertedIff(s);
    if !SomeInverted(s) {
      forall a ensures a in s.actions ==> ActionTold(valid, s, a, Lookup(cs, "Action-" + a))
               ensures a !in s.actions ==> Lookup(cs, "Action-" + a).None?
      {
        ActionTells(valid, ids, name, s, cs0, a);
      }
    }
  }

  /** The pass over the actions of a spec whose periods are valid, up to the Ready condition it settles on. */
  method ReconcileActions(svc: ScheduleService, name: string, s: ScheduleSpec, cs0: seq<Condition>)
    returns (cs: seq<Condition>, ready: Condition, ghost ops: seq<Op>)
    requires svc.Valid() && PeriodsValid(s.activePeriods) && PeriodsValid(s.inactivePeriods)
    modifies svc
    ensures svc.Valid() && svc.Registry() == ApplyOps(old(svc.Registry()), ops)
    ensures PassRefreshes(svc.valid, old(svc.Registry()), name, s, ops)
    ensures Unique(cs0) ==> Unique(cs)
    ensures ready == Ready(svc.valid, old(svc.ids), name, s)
    ensures forall kind :: Lookup(cs, kind) ==
              if !IsForAction(kind) then Lookup(cs0, kind)
              else if ActionOf(kind) in s.actions then Some(Reported(svc.valid, s, ActionOf(kind)))
              else None
  {
    ops := [];
    var invalid;
    cs, invalid := ReportActions(svc.valid, s, cs0);
    cs := RemoveMissingActions(cs, s.actions.Keys);
    if invalid {
      ready := Condition(READY, false, "InvalidCronExpression");
      return;
    }
    var missing;
    missing, ops := RefreshEntries(svc, name, s);
    ready := if missing then Condition(READY, false, "MissingAction")
             else if !s.active then Condition(READY, false, "Disabled")
             else Condition(READY, true, "Active");
  }

  method ReconcileSchedule(svc: ScheduleService, name: string, s: ScheduleSpec, cs0: seq<Condition>)
    returns (cs: seq<Condition>, ghost ops: seq<Op>)
    requires svc.Valid()
    modifies svc
    ensures svc.Valid() && svc.Registry() == ApplyOps(old(svc.Registry()), ops)
    ensures PassRefreshes(svc.valid, old(svc.Registry()), name, s, ops)
    ensures Unique(cs0) ==> Unique(cs)
    ensures forall kind :: Lookup(cs, kind) == Reports(svc.valid, old(svc.ids), name, s, cs0, kind)
    ensures StatusTold(svc.valid, old(svc.ids), name, s, cs0, cs)
  {
    ops := [];
    assert !IsForAction(READY) by {
      assert READY[0] != PREFIX[0];
    }
    var activeOk := AllPeriodsValid(s.activePeriods);
    var inactiveOk := AllPeriodsValid(s.inactivePeriods);
    var ready;
    if !activeOk || !inactiveOk {
      cs, ready := cs0, Condition(READY, false, "InvalidPeriod");
    } else {
      cs, ready, ops := ReconcileActions(svc, name, s, cs0);
    }
    SetWith(cs, ready);
    cs := Set(cs, ready);
    StatusTells(svc.valid, old(svc.ids), name, s, cs0, cs);
  }
}
