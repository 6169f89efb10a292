/** The schedule service object taken through whole runs: what is proved of runs holds of the object. */
module RegistryDriver {
  import opened Base
  import opened CronRegistry
  import opened CronService
  import opened Conditions
  import opened ResourcePass
  import opened SchedulePass
  import opened ResourceStatus
  import StatusRuns
  import RegistryRuns

  /** What the operator is asked to do; `taken` is the store's answer to the status write of a resource pass. */
  datatype Request =
    | ForResource(p: Resource, fetched: Option<ScheduleSpec>, taken: bool)
    | ForSchedule(name: string, s: ScheduleSpec, conditions: seq<Condition>)
    | ForDeleted(resource: string)
    | ForJob(resource: string, action: string, ok: bool)
    | ForRestart

  type Store = map<string, seq<Condition>>

  function At(store: Store, cs0: string -> seq<Condition>, resource: string): seq<Condition> {
    if resource in store then store[resource] else cs0(resource)
  }

  /** The store holds the conditions of the run. */
  ghost predicate Holds(store: Store, cs0: string -> seq<Condition>, steps: seq<StatusRuns.Step>) {
    forall r :: At(store, cs0, r) == StatusRuns.StatusOf(cs0, steps, r)
  }

  /** The step answers the request. */
  ghost predicate Answers(step: StatusRuns.Step, request: Request) {
    match request
    case ForResource(p, fetched, taken) =>
      && step.Reconciled? && step.pass.OfResource?
      && step.pass.p == p && step.pass.fetched == fetched && step.taken == taken
    case ForSchedule(name, s, _) =>
      step.Reconciled? && step.pass.OfSchedule? && step.pass.name == name && step.pass.s == s
    case ForDeleted(resource) => step.Reconciled? && step.pass.OfDeleted? && step.pass.resource == resource
    case ForJob(resource, action, ok) => step == StatusRuns.Reported(resource, action, ok)
    case ForRestart => step == StatusRuns.Restarted
  }

  /** The step took the registry from `reg` to `reg'` and the store from `store0` to `store`. */
  ghost predicate Served(valid: string -> bool, cs0: string -> seq<Condition>, reg: Registry, reg': Registry,
                         store0: Store, store: Store, step: StatusRuns.Step) {
    && reg' == StatusRuns.Effect(reg, step)
    && (step.Reconciled? ==> RegistryRuns.Permits(valid, reg, step.pass))
    && (step.Reconciled? && step.pass.OfResource? ==>
          ReportsAt(valid, reg, step.pass.p, step.pass.fetched, step.pass.result, step.pass.ops,
                    At(store0, cs0, step.pass.p.name), step.cs, step.stop, step.todo))
    && forall r :: At(store, cs0, r) == StatusRuns.Stored(At(store0, cs0, r), step, r)
  }

  lemma ServedRuns(valid: string -> bool, cs0: string -> seq<Condition>, steps: seq<StatusRuns.Step>, reg': Registry,
                   store0: Store, store: Store, step: StatusRuns.Step)
    requires StatusRuns.Run(valid, cs0, steps) && Holds(store0, cs0, steps)
    requires Served(valid, cs0, StatusRuns.RegistryAfter(steps), reg', store0, store, step)
    ensures StatusRuns.Run(valid, cs0, steps + [step]) && Holds(store, cs0, steps + [step])
    ensures StatusRuns.RegistryAfter(steps + [step]) == reg'
  {
    assert (steps + [step])[..|steps|] == steps;
  }

  method ServeResource(svc: ScheduleService, store0: Store, p: Resource, fetched: Option<ScheduleSpec>, taken: bool,
                       cs0: string -> seq<Condition>)
    returns (store: Store, ghost step: StatusRuns.Step)
    requires svc.Valid() && Inv(svc.Registry())
    modifies svc
    ensures svc.Valid() && Answers(step, ForResource(p, fetched, taken))
    ensures Served(svc.valid, cs0, old(svc.Registry()), svc.Registry(), store0, store, step)
  {
    ghost var reg := svc.Registry();
    var result, cs, ops := ReconcileResource(svc, p, fetched, At(store0, cs0, p.name));
    ghost var stop, todo := StoppingPoint(svc.valid, reg, p, fetched, result, ops, At(store0, cs0, p.name), cs);
    step := StatusRuns.Reconciled(RegistryRuns.OfResource(p, fetched, result, ops), cs, taken, stop, todo);
    store := if taken then store0[p.name := cs] else store0;
  }

  method ServeSchedule(svc: ScheduleService, store: Store, name: string, s: ScheduleSpec, conditions: seq<Condition>,
                       ghost cs0: string -> seq<Condition>)
    returns (ghost step: StatusRuns.Step)
    requires svc.Valid()
    modifies svc
    ensures svc.Valid() && Answers(step, ForSchedule(name, s, conditions))
    ensures Served(svc.valid, cs0, old(svc.Registry()), svc.Registry(), store, store, step)
  {
    var _, ops := ReconcileSchedule(svc, name, s, conditions);
    step := StatusRuns.Reconciled(RegistryRuns.OfSchedule(name, s, ops), [], true, "", {});
  }

  method ServeDeleted(svc: ScheduleService, store0: Store, resource: string, ghost cs0: string -> seq<Condition>)
    returns (store: Store, ghost step: StatusRuns.Step)
    requires svc.Valid()
    modifies svc
    ensures svc.Valid() && Answers(step, ForDeleted(resource))
    ensures Served(svc.valid, cs0, old(svc.Registry()), svc.Registry(), store0, store, step)
  {
    var ops := svc.RemoveResource(resource);
    step := StatusRuns.Reconciled(RegistryRuns.OfDeleted(resource, ops), [], true, "", {});
    store := store0[resource := []];
  }

  /** One request. A restart is a new service; everything else happens to the one there is. */
  method Serve(svc0: ScheduleService, store0: Store, request: Request, cs0: string -> seq<Condition>)
    returns (svc: ScheduleService, store: Store, ghost step: StatusRuns.Step)
    requires svc0.Valid() && Inv(svc0.Registry())
    modifies svc0
    ensures svc == svc0 || fresh(svc)
    ensures svc.Valid() && svc.valid == svc0.valid && Answers(step, request)
    ensures Served(svc0.valid, cs0, old(svc0.Registry()), svc.Registry(), store0, store, step)
  {
    svc, store := svc0, store0;
    match request {
      case ForResource(p, fetched, taken) =>
        store, step := ServeResource(svc, store, p, fetched, taken, cs0);
      case ForSchedule(name, s, conditions) =>
        step := ServeSchedule(svc, store, name, s, conditions, cs0);
      case ForDeleted(resource) =>
        store, step := ServeDeleted(svc, store, resource, cs0);
      case ForJob(resource, action, ok) =>
        step := StatusRuns.Reported(resource, action, ok);
        store := store[resource := Set(At(store, cs0, resource), JobReport(action, ok))];
      case ForRestart =>
        step := StatusRuns.Restarted;
        svc := new ScheduleService(svc0.valid);
    }
  }

  /** The operator driven through any requests, from any conditions in the store, goes through a run: its registry
      and its store are those of the run, so keys, entries and gauge agree, no resource is under two schedules, and
      every condition is true exactly when the run's steps make it so. */
  method Drive(valid: string -> bool, cs0: string -> seq<Condition>, requests: seq<Request>)
    returns (svc: ScheduleService, store: Store, ghost steps: seq<StatusRuns.Step>)
    ensures fresh(svc) && svc.Valid() && svc.Registry() == StatusRuns.RegistryAfter(steps)
    ensures |steps| == |requests| && forall i :: 0 <= i < |steps| ==> Answers(steps[i], requests[i])
    ensures StatusRuns.Run(valid, cs0, steps) && Holds(store, cs0, steps)
    ensures Inv(svc.Registry()) && RegistryRuns.OneSchedule(svc.Registry())
    ensures forall r, a :: TrueOf(svc.Registry(), r, At(store, cs0, r), a) <==> StatusRuns.Accurate(cs0, steps, r, a)
  {
    svc := new ScheduleService(valid);
    store, steps := map[], [];
    for i := 0 to |requests|
      invariant fresh(svc) && svc.Valid() && svc.valid == valid
      invariant svc.Registry() == StatusRuns.RegistryAfter(steps)
      invariant StatusRuns.Run(valid, cs0, steps) && Holds(store, cs0, steps)
      invariant |steps| == i && forall j :: 0 <= j < i ==> Answers(steps[j], requests[j])
    {
      ghost var step;
      ghost var before := store;
      StatusRuns.RunSound(valid, cs0, steps);
      svc, store, step := Serve(svc, store, requests[i], cs0);
      ServedRuns(valid, cs0, steps, svc.Registry(), before, store, step);
      steps := steps + [step];
    }
    StatusRuns.RunSound(valid, cs0, steps);
    forall r, a
      ensures TrueOf(svc.Registry(), r, At(store, cs0, r), a) <==> StatusRuns.Accurate(cs0, steps, r, a)
    {
      StatusRuns.TrueIffAccurate(valid, cs0, steps, r, a);
    }
  }
}
