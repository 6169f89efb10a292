/** Concrete runs of the reconciler after which a resource's conditions are wrong. */
module StatusWitnesses {
  import opened Base
  import opened CronRegistry
  import opened CronService
  import opened Conditions
  import opened ResourcePass
  import opened ResourceStatus
  import RegistryRuns

  function Database(actions: map<string, bool>): Resource {
    Resource("db", true, "nightly", actions)
  }

  function Nightly(cron: string): ScheduleSpec {
    ScheduleSpec(true, map["stop" := ScheduleAction(cron, true)], [], [])
  }

  /** A pass over the resource; with a valid cron text it ends well. */
  method Pass(svc: ScheduleService, actions: map<string, bool>, cron: string, cs0: seq<Condition>)
    returns (cs: seq<Condition>, ghost ops: seq<Op>)
    requires svc.Valid() && Inv(svc.Registry()) && RegistryRuns.OneSchedule(svc.Registry()) && svc.valid(cron)
    modifies svc
    ensures svc.Valid() && Inv(svc.Registry()) && RegistryRuns.OneSchedule(svc.Registry())
    ensures svc.Registry() == ApplyOps(old(svc.Registry()), ops)
    ensures PassOps(svc.valid, old(svc.Registry()), Database(actions), Some(Nightly(cron)), Done, ops)
    ensures PassReports(svc.valid, old(svc.Registry()), Database(actions), Some(Nightly(cron)), Done, ops, cs0, cs)
  {
    ghost var reg := svc.Registry();
    var result;
    result, cs, ops := ReconcileResource(svc, Database(actions), Some(Nightly(cron)), cs0);
    RegistryRuns.FailsIff(svc.valid, reg, Database(actions), Nightly(cron), result, ops);
    RegistryRuns.PassKeeps(svc.valid, reg,
                           RegistryRuns.OfResource(Database(actions), Some(Nightly(cron)), result, ops));
  }

  /** The pass that schedules the action loses its write; the next one does not mention the action. */
  method LostAddition(valid: string -> bool, cron: string) returns (svc: ScheduleService, cs: seq<Condition>)
    requires valid(cron)
    ensures IsScheduled(svc.Registry(), "db", "stop") && !Says(cs, "stop")
  {
    svc := new ScheduleService(valid);
    RegistryRuns.EmptyInv();
    var p := Database(map["stop" := true]);
    var _, ops := Pass(svc, p.actions, cron, []);
    ghost var reg := svc.Registry();
    ghost var again;
    cs, again := Pass(svc, p.actions, cron, []);
    ScheduledAfter(valid, Empty, p, Nightly(cron), {}, ops, "stop");
    ScheduledAfter(valid, reg, p, Nightly(cron), {}, again, "stop");
    assert !IsScheduled(Empty, "db", "stop");
    LostPassIff(valid, Empty, p, Nightly(cron), ops, again, [], cs, "stop");
  }

  /** The pass that drops the action loses its write; the next one no longer knows of it. */
  method LostRemoval(valid: string -> bool, cron: string) returns (svc: ScheduleService, cs: seq<Condition>)
    requires valid(cron)
    ensures !IsScheduled(svc.Registry(), "db", "stop") && Says(cs, "stop")
  {
    svc := new ScheduleService(valid);
    RegistryRuns.EmptyInv();
    ghost var first, third;
    var p, q := Database(map["stop" := true]), Database(map[]);
    var cs0;
    cs0, first := Pass(svc, p.actions, cron, []);
    ghost var reg := svc.Registry();
    ScheduledAfter(valid, Empty, p, Nightly(cron), {}, first, "stop");
    TruthfulKept(valid, Empty, p, Some(Nightly(cron)), Done, first, [], cs0);
    assert TrueOf(reg, "db", cs0, "stop");
    var _, second := Pass(svc, q.actions, cron, cs0);
    ghost var reg2 := svc.Registry();
    cs, third := Pass(svc, q.actions, cron, cs0);
    ScheduledAfter(valid, reg2, q, Nightly(cron), {}, third, "stop");
    LostPassIff(valid, reg, q, Nightly(cron), second, third, cs0, cs, "stop");
  }

  /** The action was dropped from the spec while no operator was running. */
  method DroppedInTheGap(valid: string -> bool, cron: string) returns (svc: ScheduleService, cs: seq<Condition>)
    requires valid(cron)
    ensures !IsScheduled(svc.Registry(), "db", "stop") && Says(cs, "stop")
  {
    svc := new ScheduleService(valid);
    RegistryRuns.EmptyInv();
    var cs0 := [Active("stop")];
    ghost var ops;
    cs, ops := Pass(svc, map[], cron, cs0);
    ScheduledAfter(valid, Empty, Database(map[]), Nightly(cron), {}, ops, "stop");
    RestartIff(valid, Database(map[]), Nightly(cron), ops, cs0, cs, "stop");
  }

  /** A job failed: its action stays scheduled, and the next pass does not call it active again. */
  method FailedJob(valid: string -> bool, cron: string) returns (svc: ScheduleService, cs: seq<Condition>)
    requires valid(cron)
    ensures IsScheduled(svc.Registry(), "db", "stop") && !Says(cs, "stop")
  {
    svc := new ScheduleService(valid);
    RegistryRuns.EmptyInv();
    var p := Database(map["stop" := true]);
    var cs0, ops := Pass(svc, p.actions, cron, []);
    ghost var reg := svc.Registry();
    var failed := Set(cs0, JobReport("stop", false));
    ghost var again;
    cs, again := Pass(svc, p.actions, cron, failed);
    KeyAfter(valid, Empty, p, Nightly(cron), {}, ops, "stop");
    ScheduledAfter(valid, Empty, p, Nightly(cron), {}, ops, "stop");
    ScheduledAfter(valid, reg, p, Nightly(cron), {}, again, "stop");
    LostStatusStays(valid, Empty, p, Nightly(cron), ops, again, failed, cs, "stop");
    SetLookup(cs0, JobReport("stop", false), ForAction("stop"));
  }
}
