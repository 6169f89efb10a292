/** How many passes an undisturbed scaling run can take. */
module ScaleBound {
  import opened ScaleProtocol
  import opened ScaleRuns

  const POLL: int := 30 * SECOND

  function Delay(q: Requeue): int {
    if q.After? then q.delay else 0
  }

  /** The time at which the last step asked to be repeated. */
  ghost function Due(cfg: Config, steps: seq<Step>): int
    requires steps != [] && steps[|steps| - 1].Pass? && Run(cfg, steps[..|steps| - 1]).obj.Live?
  {
    var s := steps[|steps| - 1];
    s.at + Delay(Execute(cfg, Run(cfg, steps[..|steps| - 1]).obj.status, s.rep).requeue)
  }

  /** Every step is a pass without an error, its write is stored, and no pass comes before it is due. */
  ghost predicate Undisturbed(cfg: Config, steps: seq<Step>) {
    steps != [] ==>
      var init, s := steps[..|steps| - 1], steps[|steps| - 1];
      && Undisturbed(cfg, init)
      && s.Pass? && s.fetched && s.answer == Stored
      && Run(cfg, init).obj.Live?
      && !Execute(cfg, Run(cfg, init).obj.status, s.rep).failed
      && (if init == [] then cfg.created.Some? ==> s.at >= cfg.created.value
          else init[|init| - 1].Pass? && Run(cfg, init[..|init| - 1]).obj.Live? && s.at >= Due(cfg, init))
  }

  /** The passes that left the phase where it was. */
  ghost function Waits(cfg: Config, steps: seq<Step>): nat {
    if steps == [] then 0
    else
      var init := steps[..|steps| - 1];
      Waits(cfg, init) +
      if Run(cfg, init).obj.Live? && Run(cfg, steps).obj.Live? &&
         Run(cfg, steps).obj.status.phase == Run(cfg, init).obj.status.phase then 1 else 0
  }

  lemma CleanPass(cfg: Config, st: Status, rep: Replies)
    requires Shape(st) && !Execute(cfg, st, rep).failed && !Execute(cfg, st, rep).done
    ensures var r := Execute(cfg, st, rep);
            && 2 <= Rank(r.status.phase) <= 7
            && Delay(r.requeue) >= 0
            && (r.status.phase != st.phase ==> Rank(r.status.phase) > Rank(st.phase))
            && (r.status.phase == st.phase ==> Delay(r.requeue) >= POLL)
  {
  }

  lemma StoredPass(cfg: Config, w: World, s: Step)
    requires cfg.supported && w.obj.Live? && Shape(w.obj.status)
    requires s.Pass? && s.fetched && s.answer == Stored && !Execute(cfg, w.obj.status, s.rep).failed
    requires Apply(cfg, w, s).obj.Live?
    ensures !cfg.Expired(s.at)
    ensures var r := Execute(cfg, w.obj.status, s.rep);
            var after := Apply(cfg, w, s).obj.status.phase;
            && 2 <= Rank(after) <= 7
            && Delay(r.requeue) >= 0
            && (after != w.obj.status.phase ==> Rank(after) > Rank(w.obj.status.phase))
            && (after == w.obj.status.phase ==> Delay(r.requeue) >= POLL)
  {
    var r := Execute(cfg, w.obj.status, s.rep);
    assert !cfg.Expired(s.at) && !r.done && Apply(cfg, w, s).obj.status == r.status;
    CleanPass(cfg, w.obj.status, s.rep);
  }

  lemma {:induction false} Pacing(cfg: Config, steps: seq<Step>)
    requires cfg.supported && cfg.created.Some?
    requires steps != [] && Undisturbed(cfg, steps) && Run(cfg, steps).obj.Live?
    ensures |steps| - Waits(cfg, steps) < Rank(Run(cfg, steps).obj.status.phase) <= 7
    ensures Due(cfg, steps) >= cfg.created.value + POLL * Waits(cfg, steps)
    ensures POLL * Waits(cfg, steps[..|steps| - 1]) <= cfg.Timeout()
    decreases |steps|
  {
    var init, s := steps[..|steps| - 1], steps[|steps| - 1];
    var w := Run(cfg, init);
    RunGood(cfg, init);
    assert Run(cfg, steps) == Apply(cfg, w, s);
    StoredPass(cfg, w, s);
    if init != [] {
      Pacing(cfg, init);
    }
    PacingStep(cfg, w.obj.status.phase, Run(cfg, steps).obj.status.phase, |init|, Waits(cfg, init), Waits(cfg, steps),
               if init == [] then cfg.created.value else Due(cfg, init), s.at, Due(cfg, steps));
  }

  /** The arithmetic of one more pass. */
  lemma PacingStep(cfg: Config, before: Phase, after: Phase, n: nat, waited: nat, waits: nat,
                   due: int, at: int, next: int)
    requires cfg.created.Some? && !cfg.Expired(at)
    requires n == 0 ==> waited == 0 && before == NoPhase
    requires n > 0 ==> n - waited < Rank(before)
    requires due >= cfg.created.value + POLL * waited && at >= due && next >= at
    requires 2 <= Rank(after) && (after != before ==> Rank(after) > Rank(before) && waits == waited)
    requires after == before ==> waits == waited + 1 && next >= at + POLL
    ensures n + 1 - waits < Rank(after)
    ensures next >= cfg.created.value + POLL * waits
    ensures POLL * waited <= cfg.Timeout()
  {
  }

  lemma AtMost(n: nat, t: int)
    requires POLL * n <= t
    ensures n <= t / POLL
  {
    assert t == t / POLL * POLL + t % POLL;
  }

  /** From creation, with each pass no earlier than it asked to be, at most six passes raise the phase and at
      most one more than the timeout holds half-minutes leave it unchanged, before the pass that finalizes. */
  lemma RunBounded(cfg: Config, steps: seq<Step>)
    requires cfg.supported && cfg.created.Some?
    requires Undisturbed(cfg, steps) && Run(cfg, steps).obj.Live?
    ensures |steps| - Waits(cfg, steps) <= 6
    ensures Waits(cfg, steps) <= cfg.Timeout() / POLL + 1
    ensures |steps| <= cfg.Timeout() / POLL + 7
  {
    if steps != [] {
      Pacing(cfg, steps);
      AtMost(Waits(cfg, steps[..|steps| - 1]), cfg.Timeout());
    }
  }
}
