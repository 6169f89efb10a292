/** One reconcile pass over a managed resource: what it does to the registry and to the resource's conditions. */
module ResourcePass {
  import opened Base
  import opened CronRegistry
  import opened CronService
  import opened Conditions

  datatype ScheduleAction = ScheduleAction(cron: string, active: bool)

  /** A span of wall time, limited to the listed actions unless the list is empty. */
  datatype Period = Period(start: int, end: int, actions: seq<string>)

  datatype ScheduleSpec = ScheduleSpec(active: bool, actions: map<string, ScheduleAction>,
                                       activePeriods: seq<Period>, inactivePeriods: seq<Period>)

  /** A managed resource; `actions` tells of each action whether it is active. */
  datatype Resource = Resource(name: string, active: bool, schedule: string, actions: map<string, bool>)
  {
    function KeyOf(action: string): Key {
      Key(schedule, action, name)
    }
  }

  datatype Result = Disabled | ScheduleNotExist | Failed | Done

  /** A key of the resource that its spec does not support. */
  ghost predicate Unsupported(p: Resource, k: Key) {
    k.resource == p.name && (k.schedule != p.schedule || k.action !in p.actions || !p.actions[k.action])
  }

  ghost predicate IsStale(reg: Registry, p: Resource, k: Key) {
    k in reg.ids && Unsupported(p, k)
  }

  /** A stale key that goes in every pass that gets past its loop over the scheduled entries. */
  ghost predicate IsForeign(reg: Registry, p: Resource, k: Key) {
    k in reg.ids && k.resource == p.name && (k.schedule != p.schedule || k.action !in p.actions)
  }

  ghost predicate Wants(reg: Registry, p: Resource, s: ScheduleSpec, action: string) {
    action in p.actions && p.actions[action] && action in s.actions && p.KeyOf(action) !in reg.ids
  }

  /** The keys the pass has to add, with the cron text the schedule gives their action. */
  ghost function Wanted(reg: Registry, p: Resource, s: ScheduleSpec): (w: map<Key, string>)
    ensures forall k :: k in w <==> k == p.KeyOf(k.action) && Wants(reg, p, s, k.action)
    ensures forall k :: k in w ==> k.action in s.actions && w[k] == s.actions[k.action].cron
  {
    map a | a in p.actions && Wants(reg, p, s, a) :: p.KeyOf(a) := s.actions[a].cron
  }

  /** The loop over the spec's actions has handled all of them but `todo`. */
  ghost predicate Progress(valid: string -> bool, reg: Registry, p: Resource, s: ScheduleSpec,
                           todo: set<string>, ops: seq<Op>) {
    && EditOps(reg, ops)
    && (forall k :: Removing(k) in ops ==> Unsupported(p, k) && (k == p.KeyOf(k.action) ==> k.action !in todo))
    && (forall k :: IsStale(reg, p, k) && (k == p.KeyOf(k.action) ==> k.action !in todo) ==> Removing(k) in ops)
    && (forall k, spec :: Adding(k, spec) in ops ==>
          k in Wanted(reg, p, s) && k.action !in todo && spec == Wanted(reg, p, s)[k])
    && (forall k :: k in Wanted(reg, p, s) && k.action !in todo ==>
          Adding(k, Wanted(reg, p, s)[k]) in ops && valid(Wanted(reg, p, s)[k]))
  }

  /** The operations of a pass that ends with `result`. */
  ghost predicate PassOps(valid: string -> bool, reg: Registry, p: Resource, fetched: Option<ScheduleSpec>,
                          result: Result, ops: seq<Op>) {
    match result
    case Disabled => !p.active && OnlyRemoves(ops) && forall k :: Removing(k) in ops <==> IsOf(reg.ids, p.name, k)
    case ScheduleNotExist => p.active && fetched.None? && ops == []
    case Done => p.active && fetched.Some? && Progress(valid, reg, p, fetched.value, {}, ops)
    case Failed =>
      && p.active && fetched.Some?
      && exists a, todo :: StopsAt(valid, reg, p, fetched.value, a, todo, ops)
  }

  /** The loop stopped at the action `a`, with the actions of `todo` still to come. */
  ghost predicate StopsAt(valid: string -> bool, reg: Registry, p: Resource, s: ScheduleSpec,
                          a: string, todo: set<string>, ops: seq<Op>) {
    a in todo && todo <= p.actions.Keys && Refuses(valid, reg, p, s, a) && Progress(valid, reg, p, s, todo, ops)
  }

  /** The action has to be added but the schedule's cron text for it is invalid. */
  ghost predicate Refuses(valid: string -> bool, reg: Registry, p: Resource, s: ScheduleSpec, action: string) {
    Wants(reg, p, s, action) && !valid(s.actions[action].cron)
  }

  // ---------------------------------------------------------------- conditions

  /** One of the operations removed a key of the action. */
  ghost predicate Forgotten(ops: seq<Op>, action: string) {
    exists k :: Removing(k) in ops && k.action == action
  }

  /** What is left under a condition type once the conditions of the removed keys' actions are gone. */
  ghost function Kept(cs0: seq<Condition>, ops: seq<Op>, kind: string): Option<Condition> {
    if IsForAction(kind) && Forgotten(ops, ActionOf(kind)) then None else Lookup(cs0, kind)
  }

  /** What the loop over the spec's actions says of an action; of a scheduled one it says nothing. */
  function Told(scheduled: bool, p: Resource, s: ScheduleSpec, action: string): Option<Condition>
    requires action in p.actions
  {
    if !p.actions[action] then Some(Condition(ForAction(action), false, "Disabled"))
    else if scheduled then None
    else if action !in s.actions then Some(Condition(ForAction(action), false, "MissingAction"))
    else Some(Condition(ForAction(action), true, "Active"))
  }

  /** What stands under a condition type when the loop has handled all actions but `todo`. */
  ghost function Shown(reg: Registry, p: Resource, s: ScheduleSpec, cs0: seq<Condition>, todo: set<string>,
                       kind: string): Option<Condition>
  {
    if IsForAction(kind) && ActionOf(kind) in p.actions && ActionOf(kind) !in todo &&
       Told(p.KeyOf(ActionOf(kind)) in reg.ids, p, s, ActionOf(kind)).Some?
    then Told(p.KeyOf(ActionOf(kind)) in reg.ids, p, s, ActionOf(kind))
    else if IsForAction(kind) && Cleared(reg, p, ActionOf(kind)) then None
    else Lookup(cs0, kind)
  }

  /** The resource has an entry of the action under another schedule, or one its spec does not name. */
  ghost predicate Cleared(reg: Registry, p: Resource, action: string) {
    exists k :: IsForeign(reg, p, k) && k.action == action
  }

  ghost predicate ShowsAll(reg: Registry, p: Resource, s: ScheduleSpec, cs0: seq<Condition>, todo: set<string>,
                           cs: seq<Condition>) {
    forall kind :: Lookup(cs, kind) == Shown(reg, p, s, cs0, todo, kind)
  }

  /** The list differs from another in one condition. */
  ghost predicate With(cs: seq<Condition>, c: Condition, before: seq<Condition>) {
    forall kind :: Lookup(cs, kind) == if kind == c.kind then Some(c) else Lookup(before, kind)
  }

  /** The conditions with which a pass ends. */
  ghost predicate PassReports(valid: string -> bool, reg: Registry, p: Resource, fetched: Option<ScheduleSpec>,
                              result: Result, ops: seq<Op>, cs0: seq<Condition>, cs: seq<Condition>) {
    match result
    case Disabled =>
      forall kind :: Lookup(cs, kind) ==
        if kind == READY then Some(Condition(READY, false, "Disabled"))
        else if "Action" <= kind then None else Lookup(cs0, kind)
    case ScheduleNotExist => With(cs, Condition(READY, false, "ScheduleNotExist"), cs0)
    case Done =>
      && fetched.Some?
      && exists before :: ShowsAll(reg, p, fetched.value, cs0, {}, before) &&
                          With(cs, Condition(READY, true, "Active"), before)
    case Failed =>
      fetched.Some? && exists stop, todo :: FailedReport(valid, reg, p, fetched.value, ops, cs0, cs, stop, todo)
  }

  /** The conditions of a pass that stopped at an action with others still to come. */
  ghost predicate FailedReport(valid: string -> bool, reg: Registry, p: Resource, s: ScheduleSpec, ops: seq<Op>,
                               cs0: seq<Condition>, cs: seq<Condition>, stop: string, todo: set<string>) {
    && StopsAt(valid, reg, p, s, stop, todo, ops)
    && exists before :: ShowsAll(reg, p, s, cs0, todo, before) &&
                        With(cs, Condition(ForAction(stop), false, "Error"), before)
  }

  lemma SetWith(cs: seq<Condition>, c: Condition)
    ensures With(Set(cs, c), c, cs) && (Unique(cs) ==> Unique(Set(cs, c)))
  {
    if Unique(cs) {
      SetUnique(cs, c);
    }
    forall kind ensures Lookup(Set(cs, c), kind) == if kind == c.kind then Some(c) else Lookup(cs, kind) {
      SetLookup(cs, c, kind);
    }
  }

  /** The condition of one more action is forgotten. */
  lemma KeptNext(cs0: seq<Condition>, ops: seq<Op>, cs: seq<Condition>, k: Key)
    requires forall kind :: Lookup(cs, kind) == Kept(cs0, ops, kind)
    ensures forall kind :: Lookup(Conditions.Remove(cs, ForAction(k.action)), kind) ==
                           Kept(cs0, ops + [Removing(k)], kind)
  {
    var after := ops + [Removing(k)];
    forall kind ensures Lookup(Conditions.Remove(cs, ForAction(k.action)), kind) == Kept(cs0, after, kind) {
      FilterLookup(cs, t => t != ForAction(k.action), kind);
      ForActionInjective(k.action, k.action);
      if IsForAction(kind) {
        ForgottenNext(ops, k, ActionOf(kind));
      }
    }
  }

  lemma ForgottenNext(ops: seq<Op>, k: Key, action: string)
    ensures Forgotten(ops + [Removing(k)], action) <==> Forgotten(ops, action) || k.action == action
  {
    var after := ops + [Removing(k)];
    assert Removing(k) in after;
    forall l | Removing(l) in ops ensures Removing(l) in after {}
  }

  /** The conditions of the actions that were removed with another schedule go too. */
  method Forget(cs0: seq<Condition>, removed: seq<string>, ghost ops: seq<Op>) returns (cs: seq<Condition>)
    requires OnlyRemoves(ops) && removed == Names(ops)
    ensures forall kind :: Lookup(cs, kind) == Kept(cs0, ops, kind)
    ensures Unique(cs0) ==> Unique(cs)
  {
    cs := cs0;
    assert ops[..0] == [];
    NamesAre(ops);
    for i := 0 to |removed|
      invariant forall kind :: Lookup(cs, kind) == Kept(cs0, ops[..i], kind)
      invariant Unique(cs0) ==> Unique(cs)
    {
      assert ops[..i + 1] == ops[..i] + [ops[i]];
      assert ops[i] in ops;
      KeptNext(cs0, ops[..i], cs, ops[i].key);
      FilterUnique(cs, t => t != ForAction(removed[i]));
      cs := Conditions.Remove(cs, ForAction(removed[i]));
    }
    assert ops[..|ops|] == ops;
  }

  lemma {:induction false} NamesAre(ops: seq<Op>)
    ensures |Names(ops)| == |ops| && forall i :: 0 <= i < |ops| ==> Names(ops)[i] == ops[i].key.action
  {
    if ops != [] {
      NamesAre(ops[1..]);
      forall i | 0 <= i < |ops| ensures Names(ops)[i] == ops[i].key.action {
        assert i > 0 ==> Names(ops)[i] == Names(ops[1..])[i - 1] && ops[1..][i - 1] == ops[i];
      }
    }
  }

  lemma ShownStart(reg: Registry, p: Resource, s: ScheduleSpec, cs0: seq<Condition>, ops: seq<Op>, cs: seq<Condition>)
    requires OnlyRemoves(ops) && forall k :: Removing(k) in ops <==> IsForeign(reg, p, k)
    requires forall kind :: Lookup(cs, kind) == Kept(cs0, ops, kind)
    ensures ShowsAll(reg, p, s, cs0, p.actions.Keys, cs)
  {
    forall a ensures Forgotten(ops, a) <==> Cleared(reg, p, a) {}
  }

  /** One more action is handled. */
  lemma ShownNext(reg: Registry, p: Resource, s: ScheduleSpec, cs0: seq<Condition>, todo: set<string>,
                  cs: seq<Condition>, a: string)
    requires ShowsAll(reg, p, s, cs0, todo, cs) && a in todo && a in p.actions
    ensures var c := Told(p.KeyOf(a) in reg.ids, p, s, a);
            ShowsAll(reg, p, s, cs0, todo - {a}, if c.Some? then Set(cs, c.value) else cs)
  {
    var c := Told(p.KeyOf(a) in reg.ids, p, s, a);
    var cs' := if c.Some? then Set(cs, c.value) else cs;
    if c.Some? {
      SetWith(cs, c.value);
    }
    forall kind ensures Lookup(cs', kind) == Shown(reg, p, s, cs0, todo - {a}, kind) {
      ForActionInjective(a, a);
      if IsForAction(kind) {
        ForActionInjective(a, ActionOf(kind));
      }
    }
  }

  // ---------------------------------------------------------------- the loops

  lemma EditOpsAppend(reg: Registry, ops: seq<Op>, op: Op)
    requires EditOps(reg, ops) && !op.Refreshing?
    requires op.Adding? ==> op.key !in reg.ids
    requires forall o :: o in ops && (o.Adding? || op.Adding?) ==> o.key != op.key
    ensures EditOps(reg, ops + [op])
  {
    var all := ops + [op];
    forall i, j | 0 <= i < j < |all| && (all[i].Adding? || all[j].Adding?) ensures all[i].key != all[j].key {
      if j == |ops| {
        assert ops[i] in ops;
      }
    }
  }

  lemma ProgressStart(valid: string -> bool, reg: Registry, p: Resource, s: ScheduleSpec, ops: seq<Op>)
    requires OnlyRemoves(ops) && forall k :: Removing(k) in ops <==> IsForeign(reg, p, k)
    ensures Progress(valid, reg, p, s, p.actions.Keys, ops)
  {
    RemovesAreEdits(reg, ops);
  }

  /** An inactive action: its key goes, whether or not it is there. */
  lemma ProgressRemove(valid: string -> bool, reg: Registry, p: Resource, s: ScheduleSpec,
                       todo: set<string>, ops: seq<Op>, a: string)
    requires Progress(valid, reg, p, s, todo, ops) && a in todo && a in p.actions && !p.actions[a]
    ensures Progress(valid, reg, p, s, todo - {a}, ops + [Removing(p.KeyOf(a))])
  {
    var op := Removing(p.KeyOf(a));
    forall o | o in ops && o.Adding? ensures o.key != op.key {
      assert Adding(o.key, o.spec) in ops;
    }
    EditOpsAppend(reg, ops, op);
  }

  /** An action that is scheduled already or that the schedule does not define: nothing to do. */
  lemma ProgressSkip(valid: string -> bool, reg: Registry, p: Resource, s: ScheduleSpec,
                     todo: set<string>, ops: seq<Op>, a: string)
    requires Progress(valid, reg, p, s, todo, ops) && a in todo && a in p.actions && p.actions[a]
    requires !Wants(reg, p, s, a)
    ensures Progress(valid, reg, p, s, todo - {a}, ops)
  {
  }

  lemma ProgressAdd(valid: string -> bool, reg: Registry, p: Resource, s: ScheduleSpec,
                    todo: set<string>, ops: seq<Op>, a: string)
    requires Progress(valid, reg, p, s, todo, ops) && a in todo && Wants(reg, p, s, a)
    requires valid(s.actions[a].cron)
    ensures Progress(valid, reg, p, s, todo - {a}, ops + [Adding(p.KeyOf(a), s.actions[a].cron)])
  {
    var op := Adding(p.KeyOf(a), s.actions[a].cron);
    forall o | o in ops ensures o.key != op.key {
      assert !o.Refreshing? by {
        var i :| 0 <= i < |ops| && ops[i] == o;
      }
      assert o == Removing(o.key) || o == Adding(o.key, o.spec);
    }
    EditOpsAppend(reg, ops, op);
  }

  /** The loop over the scheduled entries has handled all of its actions but `todo`. */
  ghost predicate Dropping(reg: Registry, p: Resource, todo: set<string>, ops: seq<Op>) {
    && OnlyRemoves(ops)
    && forall k :: Removing(k) in ops <==> IsForeign(reg, p, k) && (k.schedule != p.schedule || k.action !in todo)
  }

  lemma DroppingStep(reg: Registry, p: Resource, todo: set<string>, ops: seq<Op>, a: string)
    requires Dropping(reg, p, todo, ops) && a in todo && p.KeyOf(a) in reg.ids
    ensures a !in p.actions ==> Dropping(reg, p, todo - {a}, ops + [Removing(p.KeyOf(a))])
    ensures a in p.actions ==> Dropping(reg, p, todo - {a}, ops)
    ensures Removing(p.KeyOf(a)) !in ops
  {
  }

  /** The loop over the entries that are already scheduled: drops those the spec no longer names. */
  method DropUndefined(svc: ScheduleService, p: Resource, ghost cs0: seq<Condition>, cs1: seq<Condition>,
                       ghost reg0: Registry, ghost ops0: seq<Op>)
    returns (scheduled: seq<string>, cs: seq<Condition>, ghost ops: seq<Op>)
    requires svc.Valid() && LiveUntilRemoved(reg0)
    requires OnlyRemoves(ops0) && svc.Registry() == ApplyOps(reg0, ops0)
    requires forall k :: Removing(k) in ops0 <==> IsElsewhere(reg0.ids, p.schedule, p.name, k)
    requires forall kind :: Lookup(cs1, kind) == Kept(cs0, ops0, kind)
    modifies svc
    ensures svc.Valid() && OnlyRemoves(ops) && svc.Registry() == ApplyOps(reg0, ops)
    ensures forall k :: Removing(k) in ops <==> IsForeign(reg0, p, k)
    ensures forall a :: a in scheduled <==> a in p.actions && p.KeyOf(a) in reg0.ids
    ensures forall kind :: Lookup(cs, kind) == Kept(cs0, ops, kind)
    ensures Unique(cs1) ==> Unique(cs)
  {
    scheduled, cs, ops := [], cs1, ops0;
    var found := svc.GetActionsOfResource(p.schedule, p.name);
    RemovalIds(reg0, ops0);
    assert forall a :: a in found <==> p.KeyOf(a) in reg0.ids;
    assert forall a :: a in found ==> found[a] == reg0.ids[p.KeyOf(a)];
    var todo := found.Keys;
    assert Dropping(reg0, p, todo, ops) by {
      forall k | IsForeign(reg0, p, k) && k.schedule == p.schedule ensures k.action in todo {
        assert k == p.KeyOf(k.action);
      }
    }
    while todo != {}
      invariant svc.Valid() && todo <= found.Keys
      invariant svc.Registry() == ApplyOps(reg0, ops) && Dropping(reg0, p, todo, ops)
      invariant forall a :: a in scheduled <==> a in found && a !in todo && a in p.actions
      invariant forall kind :: Lookup(cs, kind) == Kept(cs0, ops, kind)
      invariant Unique(cs1) ==> Unique(cs)
      decreases todo
    {
      var a :| a in todo;
      DroppingStep(reg0, p, todo, ops, a);
      assert StaysLive(reg0, ops, p.KeyOf(a));
      if svc.Live(found[a]) {
        if a !in p.actions {
          ApplyOpsSnoc(reg0, ops, Removing(p.KeyOf(a)));
          KeptNext(cs0, ops, cs, p.KeyOf(a));
          FilterUnique(cs, t => t != ForAction(a));
          svc.Remove(p.KeyOf(a));
          cs := Conditions.Remove(cs, ForAction(a));
          ops := ops + [Removing(p.KeyOf(a))];
        } else {
          scheduled := scheduled + [a];
        }
      }
      todo := todo - {a};
    }
  }

  lemma RemovesAreEdits(reg: Registry, ops: seq<Op>)
    requires OnlyRemoves(ops)
    ensures EditOps(reg, ops)
  {
    forall i | 0 <= i < |ops| ensures ops[i].Removing? {
      assert ops[i] in ops;
    }
  }

  /** Removing other keys does not end a key's entry. */
  ghost predicate StaysLive(reg: Registry, ops: seq<Op>, k: Key) {
    OnlyRemoves(ops) && k in reg.ids && Removing(k) !in ops ==> reg.ids[k] in ApplyOps(reg, ops).entries
  }

  ghost predicate LiveUntilRemoved(reg: Registry) {
    forall ops, k :: StaysLive(reg, ops, k)
  }

  lemma StillLive(reg: Registry)
    requires Inv(reg)
    ensures LiveUntilRemoved(reg)
  {
    forall ops: seq<Op>, k: Key ensures StaysLive(reg, ops, k) {
      if OnlyRemoves(ops) && k in reg.ids && Removing(k) !in ops {
        RemovalIds(reg, ops);
        RemovesAreEdits(reg, ops);
        OpsEdit(reg, ops);
        assert Refreshable(ApplyOps(reg, ops), k);
      }
    }
  }

  /** The loop over the spec's actions: removes the inactive ones and adds those not scheduled yet. */
  method AddMissing(svc: ScheduleService, p: Resource, s: ScheduleSpec, scheduled: seq<string>,
                    ghost cs0: seq<Condition>, cs1: seq<Condition>, ghost reg0: Registry, ghost ops0: seq<Op>)
    returns (result: Result, cs: seq<Condition>, ghost ops: seq<Op>)
    requires svc.Valid() && svc.Registry() == ApplyOps(reg0, ops0) && p.active
    requires OnlyRemoves(ops0) && forall k :: Removing(k) in ops0 <==> IsForeign(reg0, p, k)
    requires forall a :: a in scheduled <==> a in p.actions && p.KeyOf(a) in reg0.ids
    requires forall kind :: Lookup(cs1, kind) == Kept(cs0, ops0, kind)
    modifies svc
    ensures svc.Valid() && svc.Registry() == ApplyOps(reg0, ops)
    ensures PassOps(svc.valid, reg0, p, Some(s), result, ops)
    ensures PassReports(svc.valid, reg0, p, Some(s), result, ops, cs0, cs)
    ensures Unique(cs1) ==> Unique(cs)
  {
    cs, ops := cs1, ops0;
    ProgressStart(svc.valid, reg0, p, s, ops);
    ShownStart(reg0, p, s, cs0, ops, cs);
    var todo := p.actions.Keys;
    while todo != {}
      invariant svc.Valid() && svc.Registry() == ApplyOps(reg0, ops)
      invariant todo <= p.actions.Keys && Progress(svc.valid, reg0, p, s, todo, ops)
      invariant ShowsAll(reg0, p, s, cs0, todo, cs) && (Unique(cs1) ==> Unique(cs))
      decreases todo
    {
      var a :| a in todo;
      var failed;
      failed, ops := HandleAction(svc, p, s, scheduled, a, reg0, todo, ops);
      if failed {
        result := Failed;
        SetWith(cs, Condition(ForAction(a), false, "Error"));
        assert StopsAt(svc.valid, reg0, p, s, a, todo, ops);
        cs := Set(cs, Condition(ForAction(a), false, "Error"));
        assert FailedReport(svc.valid, reg0, p, s, ops, cs0, cs, a, todo);
        return;
      }
      ShownNext(reg0, p, s, cs0, todo, cs, a);
      var c := Told(a in scheduled, p, s, a);
      if c.Some? {
        SetWith(cs, c.value);
        cs := Set(cs, c.value);
      }
      todo := todo - {a};
    }
    SetWith(cs, Condition(READY, true, "Active"));
    result, cs := Done, Set(cs, Condition(READY, true, "Active"));
  }

  /** What the loop does to the registry for one action. */
  method HandleAction(svc: ScheduleService, p: Resource, s: ScheduleSpec, scheduled: seq<string>, a: string,
                      ghost reg0: Registry, ghost todo: set<string>, ghost ops0: seq<Op>)
    returns (failed: bool, ghost ops: seq<Op>)
    requires svc.Valid() && svc.Registry() == ApplyOps(reg0, ops0) && a in todo && a in p.actions
    requires Progress(svc.valid, reg0, p, s, todo, ops0)
    requires forall b :: b in scheduled <==> b in p.actions && p.KeyOf(b) in reg0.ids
    modifies svc
    ensures svc.Valid() && svc.Registry() == ApplyOps(reg0, ops)
    ensures failed ==> ops == ops0 && Refuses(svc.valid, reg0, p, s, a)
    ensures !failed ==> Progress(svc.valid, reg0, p, s, todo - {a}, ops)
  {
    failed, ops := false, ops0;
    if !p.actions[a] {
      ApplyOpsSnoc(reg0, ops, Removing(p.KeyOf(a)));
      ProgressRemove(svc.valid, reg0, p, s, todo, ops, a);
      svc.Remove(p.KeyOf(a));
      ops := ops + [Removing(p.KeyOf(a))];
    } else if a in scheduled || a !in s.actions {
      ProgressSkip(svc.valid, reg0, p, s, todo, ops, a);
    } else {
      failed, ops := AddAction(svc, p, s, a, reg0, todo, ops0);
    }
  }

  /** An action that has to be added is, if its cron text is valid. */
  method AddAction(svc: ScheduleService, p: Resource, s: ScheduleSpec, a: string,
                   ghost reg0: Registry, ghost todo: set<string>, ghost ops0: seq<Op>)
    returns (failed: bool, ghost ops: seq<Op>)
    requires svc.Valid() && svc.Registry() == ApplyOps(reg0, ops0) && a in todo
    requires Progress(svc.valid, reg0, p, s, todo, ops0) && Wants(reg0, p, s, a)
    modifies svc
    ensures svc.Valid() && svc.Registry() == ApplyOps(reg0, ops)
    ensures failed ==> ops == ops0 && !svc.valid(s.actions[a].cron)
    ensures !failed ==> Progress(svc.valid, reg0, p, s, todo - {a}, ops)
  {
    failed, ops := false, ops0;
    var id := svc.Add(p.KeyOf(a), s.actions[a].cron, Job(p.KeyOf(a)));
    if id.None? {
      return true, ops;
    }
    ApplyOpsSnoc(reg0, ops, Adding(p.KeyOf(a), s.actions[a].cron));
    ProgressAdd(svc.valid, reg0, p, s, todo, ops, a);
    ops := ops + [Adding(p.KeyOf(a), s.actions[a].cron)];
  }

  /** Removes every key of the resource, and every condition whose type starts like an action's. */
  method DisableResource(svc: ScheduleService, p: Resource, cs0: seq<Condition>)
    returns (cs: seq<Condition>, ghost ops: seq<Op>)
    requires svc.Valid()
    modifies svc
    ensures svc.Valid() && svc.Registry() == ApplyOps(old(svc.Registry()), ops) && OnlyRemoves(ops)
    ensures forall k :: Removing(k) in ops <==> IsOf(old(svc.ids), p.name, k)
    ensures forall kind :: Lookup(cs, kind) == if "Action" <= kind then None else Lookup(cs0, kind)
    ensures Unique(cs0) ==> Unique(cs)
  {
    ops := svc.RemoveResource(p.name);
    ghost var keep := (kind: string) => !("Action" <= kind);
    cs := [];
    for i := 0 to |cs0|
      invariant cs == Filter(cs0[..i], keep)
    {
      assert cs0[..i + 1][..i] == cs0[..i];
      if !("Action" <= cs0[i].kind) {
        cs := cs + [cs0[i]];
      }
    }
    assert cs0[..|cs0|] == cs0;
    FilterUnique(cs0, keep);
    forall kind ensures Lookup(cs, kind) == if "Action" <= kind then None else Lookup(cs0, kind) {
      FilterLookup(cs0, keep, kind);
    }
  }

  /** One pass. `fetched` is the answer to the request for the resource's schedule, `cs0` and `cs` are the
      resource's conditions before and after. */
  method ReconcileResource(svc: ScheduleService, p: Resource, fetched: Option<ScheduleSpec>, cs0: seq<Condition>)
    returns (result: Result, cs: seq<Condition>, ghost ops: seq<Op>)
    requires svc.Valid() && Inv(svc.Registry())
    modifies svc
    ensures svc.Valid() && svc.Registry() == ApplyOps(old(svc.Registry()), ops)
    ensures PassOps(svc.valid, old(svc.Registry()), p, fetched, result, ops)
    ensures PassReports(svc.valid, old(svc.Registry()), p, fetched, result, ops, cs0, cs)
    ensures Unique(cs0) ==> Unique(cs)
  {
    ghost var reg0 := svc.Registry();
    if !p.active {
      cs, ops := DisableResource(svc, p, cs0);
      SetWith(cs, Condition(READY, false, "Disabled"));
      result, cs := Disabled, Set(cs, Condition(READY, false, "Disabled"));
      return;
    }
    if fetched.None? {
      SetWith(cs0, Condition(READY, false, "ScheduleNotExist"));
      return ScheduleNotExist, Set(cs0, Condition(READY, false, "ScheduleNotExist")), [];
    }
    var removed, ops1 := svc.RemoveActionsOfResourceFromNonCurrentSchedule(p.schedule, p.name);
    var cs1 := Forget(cs0, removed, ops1);
    StillLive(reg0);
    var scheduled, cs2, ops2 := DropUndefined(svc, p, cs0, cs1, reg0, ops1);
    result, cs, ops := AddMissing(svc, p, fetched.value, scheduled, cs0, cs2, reg0, ops2);
  }
}
