/** What conditions tell about the registry over whole runs: writes are lost, jobs report and operators restart. */
module StatusRuns {
  import opened CronRegistry
  import opened Conditions
  import opened ResourceStatus
  import RegistryRuns

  /** A pass with the conditions it computes and the store's answer to its status write (`stop` and `todo` tell
      where a failed one stopped), the report of a job that has run, or an operator that starts anew. */
  datatype Step =
    | Reconciled(pass: RegistryRuns.Pass, cs: seq<Condition>, taken: bool, stop: string, todo: set<string>)
    | Reported(resource: string, action: string, ok: bool)
    | Restarted

  /** The registry lives in the process. */
  function Effect(reg: Registry, step: Step): Registry {
    if step.Reconciled? then ApplyOps(reg, step.pass.ops) else if step.Reported? then reg else Empty
  }

  function RegistryAfter(steps: seq<Step>): Registry {
    if steps == [] then Empty else Effect(RegistryAfter(steps[..|steps| - 1]), steps[|steps| - 1])
  }

  /** The conditions live in the store; a deleted resource leaves none. */
  function Stored(cs: seq<Condition>, step: Step, resource: string): seq<Condition> {
    if step.Reconciled? && step.pass.OfDeleted? && step.pass.resource == resource then []
    else if Over(step, resource) && step.taken then step.cs
    else if step.Reported? && step.resource == resource then Set(cs, JobReport(step.action, step.ok))
    else cs
  }

  /** The step is a pass over the resource. */
  predicate Over(step: Step, resource: string) {
    step.Reconciled? && step.pass.OfResource? && step.pass.p.name == resource
  }

  /** A resource's conditions after a run that began with `cs0` in the store. */
  function StatusOf(cs0: string -> seq<Condition>, steps: seq<Step>, resource: string): seq<Condition> {
    if steps == [] then cs0(resource)
    else Stored(StatusOf(cs0, steps[..|steps| - 1], resource), steps[|steps| - 1], resource)
  }

  ghost predicate Run(valid: string -> bool, cs0: string -> seq<Condition>, steps: seq<Step>) {
    steps != [] ==>
      var init, last := steps[..|steps| - 1], steps[|steps| - 1];
      && Run(valid, cs0, init)
      && (last.Reconciled? ==>
            && RegistryRuns.Permits(valid, RegistryAfter(init), last.pass)
            && (last.pass.OfResource? ==>
                  var p := last.pass.p;
                  ReportsAt(valid, RegistryAfter(init), p, last.pass.fetched, last.pass.result, last.pass.ops,
                            StatusOf(cs0, init, p.name), last.cs, last.stop, last.todo)))
  }

  lemma {:induction false} RunSound(valid: string -> bool, cs0: string -> seq<Condition>, steps: seq<Step>)
    requires Run(valid, cs0, steps)
    ensures Inv(RegistryAfter(steps)) && RegistryRuns.OneSchedule(RegistryAfter(steps))
  {
    RegistryRuns.EmptyInv();
    if steps != [] {
      var init, last := steps[..|steps| - 1], steps[|steps| - 1];
      RunSound(valid, cs0, init);
      if last.Reconciled? {
        RegistryRuns.PassKeeps(valid, RegistryAfter(init), last.pass);
      }
    }
  }

  // ---------------------------------------------------------------- when a condition is true

  /** The step took the registry from `reg` to `reg'`: does it leave the action's condition true, given whether
      it was true before? A pass whose write is taken repairs what it speaks of; a change of the schedule that
      is not reported turns true into false and false into true; a job decides by its own outcome. */
  ghost predicate StaysTrue(step: Step, reg: Registry, reg': Registry, resource: string, a: string, before: bool) {
    if Over(step, resource) && step.taken then
      before || !Silent(reg, step.pass.p, step.pass.result, step.stop, step.todo, a)
    else if step.Reconciled? && step.pass.OfDeleted? && step.pass.resource == resource then true
    else if step.Reported? then
      if step.resource == resource && step.action == a then step.ok == IsScheduled(reg, resource, a) else before
    else before == (IsScheduled(reg, resource, a) == IsScheduled(reg', resource, a))
  }

  /** The verdict on an action's condition from the passes, job reports and restarts alone. */
  ghost predicate Accurate(cs0: string -> seq<Condition>, steps: seq<Step>, resource: string, a: string) {
    if steps == [] then !Says(cs0(resource), a)
    else
      var init := steps[..|steps| - 1];
      StaysTrue(steps[|steps| - 1], RegistryAfter(init), RegistryAfter(steps), resource, a,
                Accurate(cs0, init, resource, a))
  }

  lemma TakenStep(valid: string -> bool, reg: Registry, step: Step, resource: string, a: string,
                  before: seq<Condition>)
    requires Inv(reg) && RegistryRuns.OneSchedule(reg) && Over(step, resource) && step.taken
    requires RegistryRuns.Permits(valid, reg, step.pass)
    requires ReportsAt(valid, reg, step.pass.p, step.pass.fetched, step.pass.result, step.pass.ops, before, step.cs,
                       step.stop, step.todo)
    ensures TrueOf(ApplyOps(reg, step.pass.ops), resource, step.cs, a) <==>
            StaysTrue(step, reg, ApplyOps(reg, step.pass.ops), resource, a, TrueOf(reg, resource, before, a))
  {
    var pass := step.pass;
    TrueIffSpoken(valid, reg, pass.p, pass.fetched, pass.result, pass.ops, before, step.cs, step.stop, step.todo, a);
  }

  lemma DeletedStep(reg: Registry, resource: string, ops: seq<Op>, a: string)
    requires Inv(reg) && RegistryRuns.RemovesResource(reg, resource, ops)
    ensures TrueOf(ApplyOps(reg, ops), resource, [], a)
  {
    forall k ensures k in ApplyOps(reg, ops).ids ==> k.resource != resource {
      RegistryRuns.ResourceGone(reg, resource, ops, k);
    }
  }

  /** After every run, from any conditions and whatever writes were lost, jobs reported and operators restarted:
      the condition of an action is true to the registry if and only if the run's steps make it so. */
  lemma {:induction false} TrueIffAccurate(valid: string -> bool, cs0: string -> seq<Condition>, steps: seq<Step>,
                                           resource: string, a: string)
    requires Run(valid, cs0, steps)
    ensures TrueOf(RegistryAfter(steps), resource, StatusOf(cs0, steps, resource), a) <==>
            Accurate(cs0, steps, resource, a)
  {
    if steps == [] {
      assert !IsScheduled(Empty, resource, a);
    } else {
      var init, last := steps[..|steps| - 1], steps[|steps| - 1];
      var reg, before := RegistryAfter(init), StatusOf(cs0, init, resource);
      TrueIffAccurate(valid, cs0, init, resource, a);
      RunSound(valid, cs0, init);
      if Over(last, resource) && last.taken {
        TakenStep(valid, reg, last, resource, a, before);
      } else if last.Reconciled? && last.pass.OfDeleted? && last.pass.resource == resource {
        DeletedStep(reg, resource, last.pass.ops, a);
      } else if last.Reported? && last.resource == resource {
        JobReportIff(reg, resource, before, last.action, last.ok, a);
      }
    }
  }

  // ---------------------------------------------------------------- when it is true all along

  /** The step makes a true condition false: a pass over the resource whose write is lost changes whether the
      action is scheduled, a job reports otherwise than its action is scheduled, or an operator restarts and
      forgets a scheduled action. */
  ghost predicate Misleads(step: Step, reg: Registry, resource: string, a: string) {
    if step.Reconciled? then
      && Over(step, resource) && !step.taken
      && IsScheduled(reg, resource, a) != IsScheduled(Effect(reg, step), resource, a)
    else if step.Reported? then
      step.resource == resource && step.action == a && step.ok != IsScheduled(reg, resource, a)
    else IsScheduled(reg, resource, a)
  }

  lemma MisleadsIff(valid: string -> bool, reg: Registry, step: Step, resource: string, a: string)
    requires Inv(reg) && (step.Reconciled? ==> RegistryRuns.Permits(valid, reg, step.pass))
    ensures StaysTrue(step, reg, Effect(reg, step), resource, a, true) <==> !Misleads(step, reg, resource, a)
  {
    if step.Reconciled? && !Over(step, resource) && !(step.pass.OfDeleted? && step.pass.resource == resource) {
      OthersScheduled(valid, reg, step.pass, resource, a);
    } else if step.Restarted? {
      assert !IsScheduled(Empty, resource, a);
    }
  }

  ghost predicate AlwaysTrue(cs0: string -> seq<Condition>, steps: seq<Step>, resource: string, a: string) {
    && TrueOf(RegistryAfter(steps), resource, StatusOf(cs0, steps, resource), a)
    && (steps != [] ==> AlwaysTrue(cs0, steps[..|steps| - 1], resource, a))
  }

  ghost predicate NeverMisled(cs0: string -> seq<Condition>, steps: seq<Step>, resource: string, a: string) {
    if steps == [] then !Says(cs0(resource), a)
    else
      var init := steps[..|steps| - 1];
      NeverMisled(cs0, init, resource, a) && !Misleads(steps[|steps| - 1], RegistryAfter(init), resource, a)
  }

  /** The condition of an action is true after every step of a run if and only if it did not call the action
      active at the start, and no lost write, no job and no restart misleads. */
  lemma {:induction false} RunTruthful(valid: string -> bool, cs0: string -> seq<Condition>, steps: seq<Step>,
                                       resource: string, a: string)
    requires Run(valid, cs0, steps)
    ensures AlwaysTrue(cs0, steps, resource, a) <==> NeverMisled(cs0, steps, resource, a)
  {
    TrueIffAccurate(valid, cs0, steps, resource, a);
    if steps != [] {
      var init := steps[..|steps| - 1];
      RunTruthful(valid, cs0, init, resource, a);
      RunSound(valid, cs0, init);
      TrueIffAccurate(valid, cs0, init, resource, a);
      MisleadsIff(valid, RegistryAfter(init), steps[|steps| - 1], resource, a);
    }
  }

  // ---------------------------------------------------------------- what is wrong stays wrong

  /** The step neither reports on the action nor restarts, and a pass over the resource ends well and finds the
      action active and scheduled. */
  ghost predicate PassesOver(step: Step, reg: Registry, resource: string, a: string) {
    && !step.Restarted?
    && (step.Reported? ==> step.resource != resource || step.action != a)
    && (step.Reconciled? && step.pass.OfDeleted? ==> step.pass.resource != resource)
    && (Over(step, resource) ==>
          && step.pass.result.Done? && a in step.pass.p.actions && step.pass.p.actions[a]
          && step.pass.p.KeyOf(a) in reg.ids)
  }

  ghost predicate AllPassOver(steps: seq<Step>, more: seq<Step>, resource: string, a: string) {
    more != [] ==>
      && AllPassOver(steps, more[..|more| - 1], resource, a)
      && PassesOver(more[|more| - 1], RegistryAfter(steps + more[..|more| - 1]), resource, a)
  }

  lemma WrongStep(valid: string -> bool, reg: Registry, step: Step, resource: string, a: string)
    requires Inv(reg) && RegistryRuns.OneSchedule(reg) && PassesOver(step, reg, resource, a)
    requires step.Reconciled? ==> RegistryRuns.Permits(valid, reg, step.pass)
    ensures !StaysTrue(step, reg, Effect(reg, step), resource, a, false)
  {
    if Over(step, resource) {
      var p := step.pass.p;
      ClearedIff(reg, p, a);
      RegistryRuns.DoneSchedules(valid, reg, p, step.pass.fetched.value, step.pass.ops, p.KeyOf(a));
    } else if step.Reconciled? {
      OthersScheduled(valid, reg, step.pass, resource, a);
    }
  }

  /** A condition that is wrong about a scheduled action, by a lost write or a failed job, stays wrong through any
      number of passes that end well, until a job reports on the action. */
  lemma {:induction false} WrongStays(valid: string -> bool, cs0: string -> seq<Condition>, steps: seq<Step>,
                                      more: seq<Step>, resource: string, a: string)
    requires Run(valid, cs0, steps + more) && AllPassOver(steps, more, resource, a)
    requires !TrueOf(RegistryAfter(steps), resource, StatusOf(cs0, steps, resource), a)
    ensures !TrueOf(RegistryAfter(steps + more), resource, StatusOf(cs0, steps + more, resource), a)
  {
    if more == [] {
      assert steps + more == steps;
    } else {
      var init, last := more[..|more| - 1], more[|more| - 1];
      assert (steps + more)[..|steps + more| - 1] == steps + init;
      WrongStays(valid, cs0, steps, init, resource, a);
      RunSound(valid, cs0, steps + init);
      WrongStep(valid, RegistryAfter(steps + init), last, resource, a);
      TrueIffAccurate(valid, cs0, steps + init, resource, a);
      TrueIffAccurate(valid, cs0, steps + more, resource, a);
    }
  }
}
