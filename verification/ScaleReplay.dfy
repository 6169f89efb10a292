/** What replaying a pass after a refused write does to the cluster. */
module ScaleReplay {
  import opened ScaleProtocol
  import opened ScaleRuns
  import opened ScaleSafety

  /** The class last successfully requested for each instance. */
  function Requested(log: seq<Event>): map<string, string> {
    if log == [] then map[]
    else
      var e := log[|log| - 1];
      var before := Requested(log[..|log| - 1]);
      if e.ModifyCall? && e.ok then before[e.id := e.instanceClass] else before
  }

  ghost predicate OneClass(log: seq<Event>, instanceClass: string) {
    forall e :: e in log && e.ModifyCall? ==> e.instanceClass == instanceClass
  }

  /** With one class in the history, the requested classes are that class at the instances modified successfully. */
  lemma {:induction false} RequestedIs(log: seq<Event>, instanceClass: string)
    requires OneClass(log, instanceClass)
    ensures forall x :: x in Requested(log) <==> ModifyCall(x, instanceClass, true) in log
    ensures forall x :: x in Requested(log) ==> Requested(log)[x] == instanceClass
  {
    if log != [] {
      var init, e := log[..|log| - 1], log[|log| - 1];
      assert log == init + [e];
      assert e in log;
      RequestedIs(init, instanceClass);
    }
  }

  /** In every run, whatever was requested of the cluster is the requested class, and only for the instances
      on record. */
  lemma RequestsOnTarget(cfg: Config, steps: seq<Step>, x: string)
    requires Run(cfg, steps).obj.Live? && x in Requested(Run(cfg, steps).log)
    ensures Requested(Run(cfg, steps).log)[x] == cfg.Class()
    ensures x == Run(cfg, steps).obj.status.writer || x in Run(cfg, steps).obj.status.readers
  {
    RunGood(cfg, steps);
    var w := Run(cfg, steps);
    RunOneClass(cfg, w);
    RequestedIs(w.log, cfg.Class());
    assert Expected(cfg, w.obj.status, ModifyCall(x, cfg.Class(), true));
  }

  lemma RunOneClass(cfg: Config, w: World)
    requires Good(cfg, w) && w.obj.Live?
    ensures OneClass(w.log, cfg.Class())
  {
    forall e | e in w.log && e.ModifyCall? ensures e.instanceClass == cfg.Class() {
      assert Expected(cfg, w.obj.status, e);
    }
  }

  /** A working pass over the readers or the writer leaves the phase that follows. */
  lemma WorkedPhase(cfg: Config, st: Status, rep: Replies)
    requires Shape(st) && !Execute(cfg, st, rep).failed
    ensures st.phase == ScalingReplicas ==>
              !Execute(cfg, st, rep).done && Execute(cfg, st, rep).status == st.(phase := WaitReplicas)
    ensures st.phase == ScalingWriter ==>
              !Execute(cfg, st, rep).done && Execute(cfg, st, rep).status == st.(phase := WaitOldWriter)
  {
  }

  /** After a pass that worked, every instance its phase may modify has been modified. */
  lemma WorkedPassModifies(cfg: Config, st: Status, log: seq<Event>, rep: Replies, e: Event)
    requires Coherent(cfg, st, log)
    requires !Execute(cfg, st, rep).failed
    requires e.ModifyCall? && Expected(cfg, st, e)
    ensures ModifyCall(e.id, cfg.Class(), true) in log + Execute(cfg, st, rep).calls
  {
    WorkedPhase(cfg, st, rep);
    if st.phase == ScalingReplicas || st.phase == ScalingWriter {
      ExecuteKeeps(cfg, st, log, rep);
    }
    ModifiedAfter(cfg, st, log, Execute(cfg, st, rep), e);
  }

  /** The same of a pass seen only through its result. */
  lemma ModifiedAfter(cfg: Config, st: Status, log: seq<Event>, r: Result, e: Event)
    requires Coherent(cfg, st, log) && e.ModifyCall? && Expected(cfg, st, e)
    requires st.phase == ScalingReplicas ==> r.status == st.(phase := WaitReplicas)
    requires st.phase == ScalingWriter ==> r.status == st.(phase := WaitOldWriter)
    requires st.phase == ScalingReplicas || st.phase == ScalingWriter ==> Coherent(cfg, r.status, log + r.calls)
    ensures ModifyCall(e.id, cfg.Class(), true) in log + r.calls
  {
    if st.phase == ScalingReplicas || st.phase == ScalingWriter {
      ModifiedEvidence(cfg, r.status, log + r.calls, e.id);
    } else {
      ModifiedEvidence(cfg, st, log, e.id);
    }
  }

  lemma ModifiedEvidence(cfg: Config, st: Status, log: seq<Event>, x: string)
    requires Coherent(cfg, st, log)
    requires (x in st.readers && Rank(st.phase) >= 3) || (x == st.writer && Rank(st.phase) >= 7)
    ensures ModifyCall(x, cfg.Class(), true) in log
  {
  }

  /** The pass did all its work on the cluster, but the store did not take it over: its write or delete call
      was refused, or the process died before that call. */
  ghost predicate Unstored(cfg: Config, st: Status, s: Step) {
    && (s.Pass? || s.Crash?) && !cfg.Expired(s.at) && cfg.supported && !Execute(cfg, st, s.rep).failed
    && (s.Pass? ==> s.fetched && s.answer == Refused)
    && (s.Crash? ==> |Execute(cfg, st, s.rep).calls| <= s.kept < |PassEvents(cfg, st, s.at, s.rep, s.answer)|)
  }

  lemma UnstoredStep(cfg: Config, w: World, s: Step)
    requires w.obj.Live? && Unstored(cfg, w.obj.status, s)
    ensures Apply(cfg, w, s).obj == w.obj
    ensures w.log + Execute(cfg, w.obj.status, s.rep).calls <= Apply(cfg, w, s).log
  {
    var st := w.obj.status;
    var es := PassEvents(cfg, st, s.at, s.rep, s.answer);
    var calls := Execute(cfg, st, s.rep).calls;
    assert calls <= es;
    if s.Crash? {
      assert calls <= es[..s.kept];
    }
  }

  /** A pass whose work succeeded but was not stored is replayed from the same status: the replay, complete
      or cut short, leaves every requested class as it was. */
  lemma ReplayHarmless(cfg: Config, steps: seq<Step>, first: Step, again: Step)
    requires Run(cfg, steps).obj.Live?
    requires Unstored(cfg, Run(cfg, steps).obj.status, first)
    ensures Run(cfg, steps + [first]).obj == Run(cfg, steps).obj
    ensures Requested(Run(cfg, steps + [first] + [again]).log) == Requested(Run(cfg, steps + [first]).log)
  {
    var w := Run(cfg, steps);
    var w1 := Run(cfg, steps + [first]);
    var w2 := Run(cfg, steps + [first] + [again]);
    RunSnoc(cfg, steps, first);
    RunSnoc(cfg, steps + [first], again);
    UnstoredStep(cfg, w, first);
    RunGood(cfg, steps);
    RunGood(cfg, steps + [first]);
    var es := Added(cfg, w1, again);
    RunOneClass(cfg, w1);
    forall e | e in es && e.ModifyCall?
      ensures e.instanceClass == cfg.Class() && ModifyCall(e.id, cfg.Class(), true) in w1.log
    {
      PassExpected(cfg, w1.obj.status, again.at, again.rep, again.answer);
      assert Expected(cfg, w1.obj.status, e);
      WorkedPassModifies(cfg, w.obj.status, w.log, first.rep, e);
    }
    RequestedIs(w1.log, cfg.Class());
    assert OneClass(w1.log + es, cfg.Class());
    RequestedIs(w1.log + es, cfg.Class());
    SameRequests(w1.log, es, cfg.Class());
  }

  lemma SameRequests(log: seq<Event>, es: seq<Event>, instanceClass: string)
    requires OneClass(log + es, instanceClass)
    requires forall e :: e in es && e.ModifyCall? ==> ModifyCall(e.id, instanceClass, true) in log
    ensures Requested(log + es) == Requested(log)
  {
    assert OneClass(log, instanceClass);
    RequestedIs(log, instanceClass);
    RequestedIs(log + es, instanceClass);
    var a, b := Requested(log + es), Requested(log);
    forall x ensures x in a <==> x in b {}
  }
}
