/** The reconcilers at work together: the locked calls of resource passes, refreshes and deletions interleave. */
module RegistryRace {
  import opened Base
  import opened CronRegistry
  import opened ResourcePass
  import opened RegistryRuns
  import opened ResourceOutcome

  datatype Stage = Fetched | Cleared | Looking

  /** A resource pass under way. `found` is its snapshot of the ids, `toLook` and `todo` what its two loops still
      have to handle; `swapped` remembers the actions whose id a refresh replaced before it was looked up. */
  datatype Thread = Thread(p: Resource, s: ScheduleSpec, stage: Stage, found: map<string, int>, toLook: set<string>,
                           scheduled: set<string>, todo: set<string>, swapped: set<string>)

  /** Each resource has at most one pass under way. */
  datatype State = State(reg: Registry, threads: map<string, Thread>)

  datatype Step =
    | Begin(p: Resource, s: ScheduleSpec)
    | Clear(resource: string, ops: seq<Op>)
    | Snapshot(resource: string)
    | Look(resource: string, action: string)
    | Handle(resource: string, action: string)
    | End(resource: string)
    | Refresh(key: Key, spec: string)
    | Delete(resource: string, ops: seq<Op>)

  function Found(reg: Registry, p: Resource): (found: map<string, int>)
    ensures forall a :: a in found <==> p.KeyOf(a) in reg.ids
    ensures forall a :: a in found ==> found[a] == reg.ids[p.KeyOf(a)]
  {
    var found := map k | k in reg.ids && k == p.KeyOf(k.action) :: k.action := reg.ids[k];
    assert forall a :: p.KeyOf(a) in reg.ids ==> p.KeyOf(a).action in found;
    found
  }

  ghost predicate ClearsElsewhere(reg: Registry, p: Resource, ops: seq<Op>) {
    OnlyRemoves(ops) && forall k :: Removing(k) in ops <==> IsElsewhere(reg.ids, p.schedule, p.name, k)
  }

  /** One round of the loop over the snapshot: an id that is no longer live is passed over. */
  function LookAt(reg: Registry, t: Thread, a: string): (Registry, Thread)
    requires a in t.found
  {
    var t' := t.(toLook := t.toLook - {a});
    if t.found[a] !in reg.entries then (reg, t')
    else if a !in t.p.actions then (RemoveKey(reg, t.p.KeyOf(a)), t')
    else (reg, t'.(scheduled := t.scheduled + {a}))
  }

  /** The pass finds the action active, not scheduled and defined by the schedule with a valid text. */
  predicate Adds(valid: string -> bool, t: Thread, a: string) {
    && a in t.p.actions && t.p.actions[a] && a !in t.scheduled
    && a in t.s.actions && valid(t.s.actions[a].cron)
  }

  /** One round of the loop over the spec; an invalid text ends the pass. */
  function HandleAt(valid: string -> bool, reg: Registry, t: Thread, a: string): (Registry, Option<Thread>)
    requires a in t.p.actions
  {
    var k, t' := t.p.KeyOf(a), t.(todo := t.todo - {a});
    if !t.p.actions[a] then (RemoveKey(reg, k), Some(t'))
    else if a in t.scheduled || a !in t.s.actions then (reg, Some(t'))
    else if !valid(t.s.actions[a].cron) then (reg, None)
    else (AddKey(reg, k, t.s.actions[a].cron, Job(k)), Some(t'))
  }

  function Swap(t: Thread, k: Key): Thread {
    if t.stage == Looking && k == t.p.KeyOf(k.action) && k.action in t.toLook
    then t.(swapped := t.swapped + {k.action}) else t
  }

  /** A step that is not enabled changes nothing. */
  ghost predicate Enabled(valid: string -> bool, st: State, step: Step) {
    match step
    case Begin(p, s) => p.name !in st.threads
    case Clear(r, ops) =>
      r in st.threads && st.threads[r].stage == Fetched && ClearsElsewhere(st.reg, st.threads[r].p, ops)
    case Snapshot(r) => r in st.threads && st.threads[r].stage == Cleared
    case Look(r, a) =>
      && r in st.threads && st.threads[r].stage == Looking
      && a in st.threads[r].toLook && a in st.threads[r].found
    case Handle(r, a) =>
      && r in st.threads && st.threads[r].stage == Looking && st.threads[r].toLook == {}
      && a in st.threads[r].todo && a in st.threads[r].p.actions
    case End(r) => r in st.threads
    case Refresh(k, spec) => Refreshable(st.reg, k) && valid(spec)
    case Delete(r, ops) => r !in st.threads && RemovesResource(st.reg, r, ops)
  }

  ghost function Apply(valid: string -> bool, st: State, step: Step): State {
    if !Enabled(valid, st, step) then st
    else
      match step
      case Begin(p, s) => st.(threads := st.threads[p.name := Thread(p, s, Fetched, map[], {}, {}, {}, {})])
      case Clear(r, ops) => State(ApplyOps(st.reg, ops), st.threads[r := st.threads[r].(stage := Cleared)])
      case Snapshot(r) =>
        var t := st.threads[r];
        var found := Found(st.reg, t.p);
        st.(threads := st.threads[r := t.(stage := Looking, found := found, toLook := found.Keys,
                                          scheduled := {}, todo := t.p.actions.Keys, swapped := {})])
      case Look(r, a) =>
        var (reg, t) := LookAt(st.reg, st.threads[r], a);
        State(reg, st.threads[r := t])
      case Handle(r, a) =>
        var (reg, t) := HandleAt(valid, st.reg, st.threads[r], a);
        State(reg, if t.Some? then st.threads[r := t.value] else st.threads - {r})
      case End(r) => st.(threads := st.threads - {r})
      case Refresh(k, spec) => State(RefreshKey(st.reg, k, spec), map r | r in st.threads :: Swap(st.threads[r], k))
      case Delete(r, ops) => st.(reg := ApplyOps(st.reg, ops))
  }

  ghost function Run(valid: string -> bool, steps: seq<Step>): State {
    if steps == [] then State(Empty, map[])
    else Apply(valid, Run(valid, steps[..|steps| - 1]), steps[|steps| - 1])
  }

  // ---------------------------------------------------------------- what a pass may rely on

  /** An action still to be looked up has its key, and its id unless a refresh replaced it. */
  ghost predicate LookOk(reg: Registry, t: Thread, a: string)
    requires a in t.found
  {
    && t.p.KeyOf(a) in reg.ids && t.found[a] < reg.next
    && (if a in t.swapped then t.found[a] !in reg.entries else t.found[a] == reg.ids[t.p.KeyOf(a)])
  }

  ghost predicate ThreadOk(reg: Registry, t: Thread) {
    t.stage == Looking ==>
      && t.toLook <= t.found.Keys && t.swapped <= t.found.Keys && t.todo <= t.p.actions.Keys
      && (forall a :: a in t.toLook ==> LookOk(reg, t, a))
      && (t.toLook != {} ==> t.todo == t.p.actions.Keys)
      && (forall a :: a in t.todo ==> (t.p.KeyOf(a) in reg.ids <==> a in t.found))
      && (forall a :: a in t.p.actions ==>
            (a in t.scheduled <==> a in t.found && a !in t.toLook && a !in t.swapped))
  }

  ghost predicate Good(st: State) {
    && Inv(st.reg)
    && forall r :: r in st.threads ==> st.threads[r].p.name == r && ThreadOk(st.reg, st.threads[r])
  }

  /** The registries agree on the keys of the resource, and no id that was free before is taken. */
  ghost predicate AgreesOn(reg: Registry, reg': Registry, resource: string) {
    && (forall k: Key :: k.resource == resource ==> (k in reg'.ids <==> k in reg.ids))
    && (forall k :: k in reg.ids && k in reg'.ids && k.resource == resource ==> reg'.ids[k] == reg.ids[k])
    && FreeStays(reg, reg')
  }

  ghost predicate FreeStays(reg: Registry, reg': Registry) {
    reg.next <= reg'.next && forall i :: i < reg.next && i !in reg.entries ==> i !in reg'.entries
  }

  lemma ThreadFrame(reg: Registry, reg': Registry, t: Thread)
    requires ThreadOk(reg, t) && AgreesOn(reg, reg', t.p.name)
    ensures ThreadOk(reg', t)
  {
    if t.stage == Looking {
      forall a | a in t.toLook ensures LookOk(reg', t, a) {
        assert LookOk(reg, t, a);
      }
    }
  }

  // ---------------------------------------------------------------- the steps of a pass

  lemma SnapshotOk(reg: Registry, t: Thread)
    requires Inv(reg)
    ensures var found := Found(reg, t.p);
            ThreadOk(reg, t.(stage := Looking, found := found, toLook := found.Keys, scheduled := {},
                             todo := t.p.actions.Keys, swapped := {}))
  {
    var found := Found(reg, t.p);
    forall a | a in found ensures found[a] < reg.next {
      IdBelowNext(reg, t.p.KeyOf(a));
    }
  }

  lemma LookKeeps(reg: Registry, t: Thread, a: string)
    requires Inv(reg) && ThreadOk(reg, t) && t.stage == Looking && a in t.toLook && a in t.found
    ensures var (reg', t') := LookAt(reg, t, a);
            && Inv(reg') && t'.p == t.p && ThreadOk(reg', t')
            && FreeStays(reg, reg') && (reg' == reg || reg' == RemoveKey(reg, t.p.KeyOf(a)))
  {
    var (reg', t') := LookAt(reg, t, a);
    var k := t.p.KeyOf(a);
    assert LookOk(reg, t, a);
    IdBelowNext(reg, k);
    if reg' != reg {
      RemoveKeepsInv(reg, k);
    }
    forall b | b in t'.toLook ensures LookOk(reg', t', b) {
      assert LookOk(reg, t, b) && t.p.KeyOf(b) != k;
    }
  }

  /** The key is there when the pass adds it, if and only if a refresh replaced its id too early. */
  lemma AddsPresentIff(valid: string -> bool, reg: Registry, t: Thread, a: string)
    requires ThreadOk(reg, t) && t.stage == Looking && t.toLook == {} && a in t.todo && Adds(valid, t, a)
    ensures t.p.KeyOf(a) in reg.ids <==> a in t.swapped
  {
  }

  lemma HandleKeeps(valid: string -> bool, reg: Registry, t: Thread, a: string)
    requires Inv(reg) && ThreadOk(reg, t) && t.stage == Looking && t.toLook == {} && a in t.todo
    ensures var (reg', t') := HandleAt(valid, reg, t, a);
            && (Inv(reg') <==> !(Adds(valid, t, a) && a in t.swapped))
            && (t'.Some? && Inv(reg') ==> t'.value.p == t.p && ThreadOk(reg', t'.value))
            && FreeStays(reg, reg')
            && (reg' == reg || reg' == RemoveKey(reg, t.p.KeyOf(a)) ||
                (Adds(valid, t, a) && reg' == AddKey(reg, t.p.KeyOf(a), t.s.actions[a].cron, Job(t.p.KeyOf(a)))))
  {
    var k := t.p.KeyOf(a);
    if Adds(valid, t, a) {
      AddsPresentIff(valid, reg, t, a);
      AddKeepsInvIff(reg, k, t.s.actions[a].cron);
    } else if !t.p.actions[a] && k in reg.ids {
      RemoveKeepsInv(reg, k);
    }
  }

  lemma SwapKeeps(reg: Registry, t: Thread, k: Key, spec: string)
    requires Inv(reg) && ThreadOk(reg, t) && Refreshable(reg, k)
    ensures ThreadOk(RefreshKey(reg, k, spec), Swap(t, k)) && Swap(t, k).p == t.p
  {
    var reg', t' := RefreshKey(reg, k, spec), Swap(t, k);
    IdBelowNext(reg, k);
    if t.stage == Looking {
      forall a | a in t'.toLook ensures LookOk(reg', t', a) {
        assert LookOk(reg, t, a);
        IdBelowNext(reg, t.p.KeyOf(a));
        if t.p.KeyOf(a) != k {
          OthersSameAfterRefresh(reg, k, spec, t.p.KeyOf(a));
        }
      }
    }
  }

  // ---------------------------------------------------------------- what the others see of it

  lemma OneKeyFrame(reg: Registry, k: Key, spec: string, resource: string)
    requires Inv(reg) && k.resource != resource
    ensures AgreesOn(reg, RemoveKey(reg, k), resource)
    ensures AgreesOn(reg, AddKey(reg, k, spec, Job(k)), resource)
  {
  }

  /** Removing keys of one resource leaves the passes over the others undisturbed. */
  lemma RemovalsFrame(reg: Registry, ops: seq<Op>, mine: string, resource: string)
    requires Inv(reg) && OnlyRemoves(ops) && mine != resource
    requires forall k :: Removing(k) in ops ==> k.resource == mine
    ensures Inv(ApplyOps(reg, ops)) && AgreesOn(reg, ApplyOps(reg, ops), resource)
  {
    RemovesAreEdits(reg, ops);
    OpsEdit(reg, ops);
    RemovalIds(reg, ops);
    var reg' := ApplyOps(reg, ops);
    NothingAdded(ops);
    forall i | i !in reg.entries ensures i !in reg'.entries {
      if i in reg'.entries {
        assert Owned(reg', i);
        IdBelowNext(reg, reg'.entries[i].job.key);
      }
    }
  }

  lemma NothingAdded(ops: seq<Op>)
    requires OnlyRemoves(ops)
    ensures AddedBy(ops) == map[]
  {
    assert forall k, spec :: Adding(k, spec) !in ops;
  }

  // ---------------------------------------------------------------- what a round does

  /** No key but this one comes, goes or changes. */
  ghost predicate OnlyAt(reg: Registry, reg': Registry, k: Key) {
    forall l :: l != k ==> (l in reg.ids <==> l in reg'.ids) && (l in reg.ids ==> KeptAsIs(reg, reg', l))
  }

  lemma RemovesOnly(reg: Registry, k: Key)
    requires Inv(reg)
    ensures k !in RemoveKey(reg, k).ids && OnlyAt(reg, RemoveKey(reg, k), k)
  {
    forall l | l in reg.ids && l != k ensures KeptAsIs(reg, RemoveKey(reg, k), l) {
      IdBelowNext(reg, l);
      if k in reg.ids {
        OthersSameAfterRemove(reg, k, l);
      }
    }
  }

  lemma AddsOnly(reg: Registry, s: ScheduleSpec, k: Key)
    requires Inv(reg) && k !in reg.ids && k.action in s.actions
    ensures var reg' := AddKey(reg, k, s.actions[k.action].cron, Job(k));
            NewlyThere(reg, reg', s, k) && OnlyAt(reg, reg', k)
  {
    var spec := s.actions[k.action].cron;
    forall l | l in reg.ids && l != k ensures KeptAsIs(reg, AddKey(reg, k, spec, Job(k)), l) {
      OthersSameAfterAdd(reg, k, spec, l);
    }
  }

  /** A look at an action whose id no refresh has replaced drops it when the spec does not name it and takes it for
      scheduled when it does; a look at any other finds its id dead and does neither. */
  lemma LookTells(valid: string -> bool, st: State, r: string, a: string)
    requires Good(st) && Enabled(valid, st, Look(r, a))
    ensures var t, st' := st.threads[r], Apply(valid, st, Look(r, a));
            var k := Key(t.p.schedule, a, r);
            && OnlyAt(st.reg, st'.reg, k)
            && (k in st'.reg.ids <==> a in t.swapped || a in t.p.actions)
            && (k in st'.reg.ids ==> st'.reg == st.reg)
            && r in st'.threads
            && st'.threads[r].scheduled == t.scheduled + if a in t.p.actions && a !in t.swapped then {a} else {}
  {
    var t := st.threads[r];
    assert LookOk(st.reg, t, a);
    IdBelowNext(st.reg, t.p.KeyOf(a));
    RemovesOnly(st.reg, t.p.KeyOf(a));
    forall l | l in st.reg.ids ensures KeptAsIs(st.reg, st.reg, l) {
      IdBelowNext(st.reg, l);
    }
  }

  /** A round over an action whose id no refresh has replaced: an inactive one has no key afterwards; a present key of
      an active one stays; an absent one is added when the schedule defines it with a valid text, and the pass ends
      when the text is invalid. */
  lemma HandleTells(valid: string -> bool, st: State, r: string, a: string)
    requires Good(st) && Enabled(valid, st, Handle(r, a)) && a !in st.threads[r].swapped
    ensures var t, st' := st.threads[r], Apply(valid, st, Handle(r, a));
            var k := Key(t.p.schedule, a, r);
            var refused := CannotSchedule(valid, st.reg, t.p, t.s, a);
            && OnlyAt(st.reg, st'.reg, k)
            && (r in st'.threads <==> !refused)
            && if !t.p.actions[a] then k !in st'.reg.ids
               else if k in st.reg.ids || a !in t.s.actions || refused then st'.reg == st.reg
               else NewlyThere(st.reg, st'.reg, t.s, k)
  {
    var t := st.threads[r];
    var k := t.p.KeyOf(a);
    RemovesOnly(st.reg, k);
    if k !in st.reg.ids && a in t.s.actions {
      AddsOnly(st.reg, t.s, k);
    }
    forall l | l in st.reg.ids ensures KeptAsIs(st.reg, st.reg, l) {
      IdBelowNext(st.reg, l);
    }
  }

  // ---------------------------------------------------------------- every interleaving

  /** The step adds an action whose id a refresh replaced between the pass's snapshot and its look at it. */
  ghost predicate Readds(valid: string -> bool, st: State, step: Step) {
    && step.Handle? && Enabled(valid, st, step)
    && Adds(valid, st.threads[step.resource], step.action)
    && step.action in st.threads[step.resource].swapped
  }

  lemma OthersUndisturbed(st: State, r: string, reg': Registry)
    requires Good(st) && forall q :: q in st.threads && q != r ==> AgreesOn(st.reg, reg', q)
    ensures forall q :: q in st.threads && q != r ==> ThreadOk(reg', st.threads[q])
  {
    forall q | q in st.threads && q != r ensures ThreadOk(reg', st.threads[q]) {
      ThreadFrame(st.reg, reg', st.threads[q]);
    }
  }

  lemma LookStep(valid: string -> bool, st: State, r: string, a: string)
    requires Good(st) && Enabled(valid, st, Look(r, a))
    ensures Good(Apply(valid, st, Look(r, a)))
  {
    var t := st.threads[r];
    LookKeeps(st.reg, t, a);
    var (reg', t') := LookAt(st.reg, t, a);
    forall q | q in st.threads && q != r ensures AgreesOn(st.reg, reg', q) {
      OneKeyFrame(st.reg, t.p.KeyOf(a), "", q);
    }
    OthersUndisturbed(st, r, reg');
  }

  lemma HandleStep(valid: string -> bool, st: State, r: string, a: string)
    requires Good(st) && Enabled(valid, st, Handle(r, a))
    ensures Readds(valid, st, Handle(r, a)) ==> !Inv(Apply(valid, st, Handle(r, a)).reg)
    ensures !Readds(valid, st, Handle(r, a)) ==> Good(Apply(valid, st, Handle(r, a)))
  {
    var t := st.threads[r];
    HandleKeeps(valid, st.reg, t, a);
    var (reg', t') := HandleAt(valid, st.reg, t, a);
    forall q | q in st.threads && q != r ensures AgreesOn(st.reg, reg', q) {
      OneKeyFrame(st.reg, t.p.KeyOf(a), if a in t.s.actions then t.s.actions[a].cron else "", q);
    }
    OthersUndisturbed(st, r, reg');
  }

  lemma RemovalStep(st: State, r: string, ops: seq<Op>)
    requires Good(st) && OnlyRemoves(ops) && forall k :: Removing(k) in ops ==> k.resource == r
    ensures Inv(ApplyOps(st.reg, ops))
    ensures forall q :: q in st.threads && q != r ==> ThreadOk(ApplyOps(st.reg, ops), st.threads[q])
  {
    RemovesAreEdits(st.reg, ops);
    OpsEdit(st.reg, ops);
    forall q | q in st.threads && q != r ensures AgreesOn(st.reg, ApplyOps(st.reg, ops), q) {
      RemovalsFrame(st.reg, ops, r, q);
    }
    OthersUndisturbed(st, r, ApplyOps(st.reg, ops));
  }

  lemma RefreshStep(valid: string -> bool, st: State, k: Key, spec: string)
    requires Good(st) && Enabled(valid, st, Refresh(k, spec))
    ensures Good(Apply(valid, st, Refresh(k, spec)))
  {
    RefreshKeepsInv(st.reg, k, spec);
    forall r | r in st.threads ensures ThreadOk(RefreshKey(st.reg, k, spec), Swap(st.threads[r], k)) &&
                                       Swap(st.threads[r], k).p.name == r
    {
      SwapKeeps(st.reg, st.threads[r], k, spec);
    }
  }

  lemma StepKeeps(valid: string -> bool, st: State, step: Step)
    requires Good(st)
    ensures Readds(valid, st, step) ==> !Inv(Apply(valid, st, step).reg)
    ensures !Readds(valid, st, step) ==> Good(Apply(valid, st, step))
  {
    if Enabled(valid, st, step) {
      match step
      case Begin(_, _) =>
      case Clear(r, ops) => RemovalStep(st, r, ops);
      case Snapshot(r) => SnapshotOk(st.reg, st.threads[r]);
      case Look(r, a) => LookStep(valid, st, r, a);
      case Handle(r, a) => HandleStep(valid, st, r, a);
      case End(_) =>
      case Refresh(k, spec) => RefreshStep(valid, st, k, spec);
      case Delete(r, ops) => RemovalStep(st, r, ops);
    }
  }

  /** Keys, live entries and gauge agreed after every step. */
  ghost predicate Sound(valid: string -> bool, steps: seq<Step>) {
    Inv(Run(valid, steps).reg) && (steps != [] ==> Sound(valid, steps[..|steps| - 1]))
  }

  /** No step added an action whose id a refresh had replaced too early. */
  ghost predicate Calm(valid: string -> bool, steps: seq<Step>) {
    steps != [] ==>
      && Calm(valid, steps[..|steps| - 1])
      && !Readds(valid, Run(valid, steps[..|steps| - 1]), steps[|steps| - 1])
  }

  /** For every interleaving of resource passes, refreshes and deletions: keys, live entries and gauge agree at
      all times if and only if no refresh ever replaced an id between a pass's snapshot and its look at it,
      for an action that the pass then adds. */
  lemma {:induction false} SoundIffCalm(valid: string -> bool, steps: seq<Step>)
    ensures Sound(valid, steps) <==> Calm(valid, steps)
    ensures Calm(valid, steps) ==> Good(Run(valid, steps))
  {
    if steps == [] {
      EmptyInv();
    } else {
      SoundIffCalm(valid, steps[..|steps| - 1]);
      if Calm(valid, steps[..|steps| - 1]) {
        StepKeeps(valid, Run(valid, steps[..|steps| - 1]), steps[|steps| - 1]);
      }
    }
  }

  // ---------------------------------------------------------------- one schedule per resource

  /** All entries of a resource under the pass's schedule. */
  ghost predicate Gathered(ids: map<Key, int>, p: Resource) {
    forall k :: k in ids && k.resource == p.name ==> k.schedule == p.schedule
  }

  /** No resource is under two schedules, and one whose pass has cleared the others is under its own. */
  ghost predicate Placed(st: State) {
    && OneSchedule(st.reg)
    && forall r :: r in st.threads ==>
         st.threads[r].p.name == r && (st.threads[r].stage != Fetched ==> Gathered(st.reg.ids, st.threads[r].p))
  }

  lemma RemovalsPlaced(st: State, ops: seq<Op>)
    requires Placed(st) && OnlyRemoves(ops)
    ensures Placed(st.(reg := ApplyOps(st.reg, ops)))
  {
    RemovalIds(st.reg, ops);
  }

  lemma ClearPlaced(valid: string -> bool, st: State, r: string, ops: seq<Op>)
    requires Placed(st) && Enabled(valid, st, Clear(r, ops))
    ensures Placed(Apply(valid, st, Clear(r, ops)))
  {
    RemovalsPlaced(st, ops);
    RemovalIds(st.reg, ops);
    var p := st.threads[r].p;
    forall k | k in ApplyOps(st.reg, ops).ids && k.resource == p.name ensures k.schedule == p.schedule {
      assert k.schedule != p.schedule ==> IsElsewhere(st.reg.ids, p.schedule, p.name, k);
    }
  }

  lemma HandlePlaced(valid: string -> bool, st: State, r: string, a: string)
    requires Placed(st) && Enabled(valid, st, Handle(r, a))
    ensures Placed(Apply(valid, st, Handle(r, a)))
  {
    var t := st.threads[r];
    var k := t.p.KeyOf(a);
    var reg' := HandleAt(valid, st.reg, t, a).0;
    assert forall l :: l in reg'.ids ==> l in st.reg.ids || l == k;
    assert Gathered(st.reg.ids, t.p);
  }

  lemma StepPlaced(valid: string -> bool, st: State, step: Step)
    requires Placed(st)
    ensures Placed(Apply(valid, st, step))
  {
    if Enabled(valid, st, step) {
      match step
      case Begin(_, _) =>
      case Clear(r, ops) => ClearPlaced(valid, st, r, ops);
      case Snapshot(_) =>
      case Look(r, a) => assert forall l :: l in LookAt(st.reg, st.threads[r], a).0.ids ==> l in st.reg.ids;
      case Handle(r, a) => HandlePlaced(valid, st, r, a);
      case End(_) =>
      case Refresh(k, spec) => assert RefreshKey(st.reg, k, spec).ids.Keys == st.reg.ids.Keys;
      case Delete(_, ops) => RemovalsPlaced(st, ops);
    }
  }

  /** In every interleaving, whatever refreshes come in between, no resource is ever under two schedules. */
  lemma {:induction false} OneScheduleAlways(valid: string -> bool, steps: seq<Step>)
    ensures OneSchedule(Run(valid, steps).reg) && Placed(Run(valid, steps))
  {
    if steps != [] {
      OneScheduleAlways(valid, steps[..|steps| - 1]);
      StepPlaced(valid, Run(valid, steps[..|steps| - 1]), steps[|steps| - 1]);
    }
  }

  // ---------------------------------------------------------------- an interleaving that loses an entry

  const db := Resource("db", true, "nightly", map["stop" := true])

  function Nightly(cron: string): ScheduleSpec {
    ScheduleSpec(true, map["stop" := ScheduleAction(cron, true)], [], [])
  }

  /** One more step of a run whose state is known. */
  lemma Next(valid: string -> bool, steps: seq<Step>, st: State, step: Step, st': State) returns (more: seq<Step>)
    requires Run(valid, steps) == st && Apply(valid, st, step) == st'
    ensures Run(valid, more) == st'
  {
    more := steps + [step];
    assert more[..|steps|] == steps;
  }

  /** A pass over the resource at the given stage, nothing else being under way. */
  function During(reg: Registry, cron: string, stage: Stage): State {
    State(reg, map["db" := Thread(db, Nightly(cron), stage, map[], {}, {}, {}, {})])
  }

  /** The pass with its snapshot `found`, those of it still to be looked up, and whether its id was replaced. */
  function Looked(reg: Registry, cron: string, found: map<string, int>, toLook: set<string>,
                  swapped: set<string>): State {
    State(reg, map["db" := Thread(db, Nightly(cron), Looking, found, toLook, {}, {"stop"}, swapped)])
  }

  lemma Begins(valid: string -> bool, reg: Registry, cron: string)
    ensures Apply(valid, State(reg, map[]), Begin(db, Nightly(cron))) == During(reg, cron, Fetched)
  {
  }

  lemma Clears(valid: string -> bool, reg: Registry, cron: string)
    requires forall k :: k in reg.ids ==> k.schedule == "nightly"
    ensures Apply(valid, During(reg, cron, Fetched), Clear("db", [])) == During(reg, cron, Cleared)
  {
    assert ClearsElsewhere(reg, db, []) && ApplyOps(reg, []) == reg;
  }

  lemma Snaps(valid: string -> bool, reg: Registry, cron: string, found: map<string, int>)
    requires found == Found(reg, db)
    ensures Apply(valid, During(reg, cron, Cleared), Snapshot("db")) == Looked(reg, cron, found, found.Keys, {})
  {
    assert db.actions.Keys == {"stop"};
  }

  /** The pass adds the action. */
  lemma Added(valid: string -> bool, reg: Registry, cron: string, found: map<string, int>, swapped: set<string>)
    requires valid(cron)
    ensures var k := db.KeyOf("stop");
            var t := Thread(db, Nightly(cron), Looking, found, {}, {}, {}, swapped);
            Apply(valid, Looked(reg, cron, found, {}, swapped), Handle("db", "stop")) ==
            State(AddKey(reg, k, cron, Job(k)), map["db" := t])
  {
    assert {"stop"} - {"stop"} == {};
  }

  /** The registry after the first pass. */
  function Once(cron: string): Registry {
    AddKey(Empty, db.KeyOf("stop"), cron, Job(db.KeyOf("stop")))
  }

  lemma Ends(valid: string -> bool, reg: Registry, t: Thread)
    ensures Apply(valid, State(reg, map["db" := t]), End("db")) == State(reg, map[])
  {
    assert map["db" := t] - {"db"} == map[];
  }

  /** The registry after the refresh. */
  function Twice(cron: string): Registry {
    RefreshKey(Once(cron), db.KeyOf("stop"), cron)
  }

  lemma Refreshes(valid: string -> bool, cron: string)
    requires valid(cron)
    ensures Apply(valid, Looked(Once(cron), cron, map["stop" := 1], {"stop"}, {}), Refresh(db.KeyOf("stop"), cron)) ==
            Looked(Twice(cron), cron, map["stop" := 1], {"stop"}, {"stop"})
  {
    var st := Looked(Once(cron), cron, map["stop" := 1], {"stop"}, {});
    var k := db.KeyOf("stop");
    assert Refreshable(st.reg, k);
    var t := st.threads["db"];
    assert {} + {"stop"} == {"stop"};
    assert Swap(t, k) == t.(swapped := {"stop"});
    assert (map r | r in st.threads :: Swap(st.threads[r], k)) == map["db" := Swap(t, k)];
  }

  /** The pass takes its own entry for dead. */
  lemma Looks(valid: string -> bool, cron: string)
    ensures Apply(valid, Looked(Twice(cron), cron, map["stop" := 1], {"stop"}, {"stop"}), Look("db", "stop")) ==
            Looked(Twice(cron), cron, map["stop" := 1], {}, {"stop"})
  {
    assert 1 !in Twice(cron).entries;
    assert {"stop"} - {"stop"} == {};
  }

  /** A pass that is through with its loops. */
  function Handled(reg: Registry, cron: string, found: map<string, int>, swapped: set<string>): State {
    State(reg, map["db" := Thread(db, Nightly(cron), Looking, found, {}, {}, {}, swapped)])
  }

  /** A pass begins and takes its snapshot. */
  lemma Opens(valid: string -> bool, steps: seq<Step>, reg: Registry, cron: string, found: map<string, int>)
    returns (more: seq<Step>)
    requires Run(valid, steps) == State(reg, map[]) && found == Found(reg, db)
    requires forall k :: k in reg.ids ==> k.schedule == "nightly"
    ensures Run(valid, more) == Looked(reg, cron, found, found.Keys, {})
  {
    Begins(valid, reg, cron);
    more := Next(valid, steps, State(reg, map[]), Begin(db, Nightly(cron)), During(reg, cron, Fetched));
    Clears(valid, reg, cron);
    more := Next(valid, more, During(reg, cron, Fetched), Clear("db", []), During(reg, cron, Cleared));
    Snaps(valid, reg, cron, found);
    more := Next(valid, more, During(reg, cron, Cleared), Snapshot("db"), Looked(reg, cron, found, found.Keys, {}));
  }

  lemma FirstPass(valid: string -> bool, cron: string) returns (steps: seq<Step>)
    requires valid(cron)
    ensures Run(valid, steps) == State(Once(cron), map[])
  {
    NoneFound();
    steps := Opens(valid, [], Empty, cron, map[]);
    Added(valid, Empty, cron, map[], {});
    steps := Next(valid, steps, Looked(Empty, cron, map[], {}, {}), Handle("db", "stop"),
                  Handled(Once(cron), cron, map[], {}));
    Ends(valid, Once(cron), Thread(db, Nightly(cron), Looking, map[], {}, {}, {}, {}));
    steps := Next(valid, steps, Handled(Once(cron), cron, map[], {}), End("db"), State(Once(cron), map[]));
  }

  lemma NoneFound()
    ensures Found(Empty, db) == map[] && Found(Empty, db).Keys == {}
  {
  }

  lemma OneFound(cron: string)
    ensures Found(Once(cron), db) == map["stop" := 1]
  {
  }

  lemma SecondPass(valid: string -> bool, cron: string) returns (steps: seq<Step>)
    requires valid(cron)
    ensures Run(valid, steps) == Looked(Once(cron), cron, map["stop" := 1], {"stop"}, {})
  {
    steps := FirstPass(valid, cron);
    OneFound(cron);
    steps := Opens(valid, steps, Once(cron), cron, map["stop" := 1]);
    assert map["stop" := 1].Keys == {"stop"};
  }

  /** In some run the key of an action ends up with its third entry while the second stays live with no key and
      the gauge shows two: a refresh came between a pass's snapshot and its look. */
  lemma EntryLost(valid: string -> bool, cron: string) returns (steps: seq<Step>)
    requires valid(cron)
    ensures var reg := Run(valid, steps).reg;
            && reg.ids == map[db.KeyOf("stop") := 3] && reg.entries.Keys == {2, 3}
            && GaugeAt(reg.gauge, "nightly", "stop") == 2
  {
    var found := map["stop" := 1];
    steps := SecondPass(valid, cron);
    Refreshes(valid, cron);
    steps := Next(valid, steps, Looked(Once(cron), cron, found, {"stop"}, {}), Refresh(db.KeyOf("stop"), cron),
                  Looked(Twice(cron), cron, found, {"stop"}, {"stop"}));
    Looks(valid, cron);
    steps := Next(valid, steps, Looked(Twice(cron), cron, found, {"stop"}, {"stop"}), Look("db", "stop"),
                  Looked(Twice(cron), cron, found, {}, {"stop"}));
    Added(valid, Twice(cron), cron, found, {"stop"});
    steps := Next(valid, steps, Looked(Twice(cron), cron, found, {}, {"stop"}), Handle("db", "stop"),
                  Handled(Thrice(cron), cron, found, {"stop"}));
    ThriceIs(cron);
  }

  function Thrice(cron: string): Registry {
    AddKey(Twice(cron), db.KeyOf("stop"), cron, Job(db.KeyOf("stop")))
  }

  lemma ThriceIs(cron: string)
    ensures Thrice(cron).ids == map[db.KeyOf("stop") := 3] && Thrice(cron).entries.Keys == {2, 3}
    ensures GaugeAt(Thrice(cron).gauge, "nightly", "stop") == 2
  {
    assert Twice(cron).entries.Keys == {2};
  }
}
