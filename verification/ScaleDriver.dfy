/** The controller object taken through a whole run: what is proved of runs holds of the object. */
module ScaleDriver {
  import opened ScaleProtocol
  import opened ScaleRuns
  import opened ScaleEnding
  import opened ScaleController

  /** The process dies after the first `kept` events of a pass: the store keeps the object as it was, while
      the cluster and the recipients keep what they have heard. */
  method CrashIn(r: ActionExecutionReconciler, at: int, rep: Replies, answer: StoreReply, kept: nat)
    requires r.obj.Live?
    modifies r
    ensures r.State() == Apply(r.cfg, old(r.State()), Crash(at, rep, answer, kept))
  {
    var process := new ActionExecutionReconciler(r.cfg);
    process.obj := r.obj;
    process.Reconcile(at, true, rep, answer);
    ghost var es := PassEvents(r.cfg, r.obj.status, at, rep, answer);
    assert process.log == [] + es == es;
    if kept < |process.log| {
      r.log := r.log + (process.log[..kept] + [Crashed]);
    }
  }

  method Take(r: ActionExecutionReconciler, s: Step)
    modifies r
    ensures r.State() == Apply(r.cfg, old(r.State()), s)
  {
    match s {
      case Pass(at, fetched, rep, answer) =>
        r.Reconcile(at, fetched, rep, answer);
      case Crash(at, rep, answer, kept) =>
        if r.obj.Live? {
          CrashIn(r, at, rep, answer, kept);
        }
      case Withdraw =>
        if r.obj.Live? {
          r.obj := Terminating;
        }
      case Purge =>
        if r.obj.Terminating? {
          r.obj := Gone;
        }
    }
  }

  /** Driving the controller through any steps reaches the world of that run, in which the stored status is
      backed by the history and the history ends as it should. */
  method Drive(cfg: Config, steps: seq<Step>) returns (r: ActionExecutionReconciler)
    ensures fresh(r) && r.cfg == cfg && r.State() == Run(cfg, steps)
    ensures Good(cfg, r.State()) && Ends(r.State())
  {
    r := new ActionExecutionReconciler(cfg);
    for i := 0 to |steps|
      invariant fresh(r) && r.cfg == cfg && r.State() == Run(cfg, steps[..i])
    {
      assert steps[..i + 1] == steps[..i] + [steps[i]];
      RunSnoc(cfg, steps[..i], steps[i]);
      Take(r, steps[i]);
    }
    assert steps[..|steps|] == steps;
    RunGood(cfg, steps);
    RunEnds(cfg, steps);
  }
}
