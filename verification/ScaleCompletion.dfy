/** A scaling execution never paints itself into a corner: from every state it can still complete. */
module ScaleCompletion {
  import opened Base
  import opened ScaleProtocol
  import opened ScaleRuns
  import Aurora

  /** The environment's answers let the phase move on. */
  ghost predicate Moves(cfg: Config, st: Status, rep: Replies) {
    && rep.setup == Ready
    && match st.phase
       case NoPhase => Aurora.Describe(cfg.cluster, rep.describe).Described?
       case Initialization => Aurora.Describe(cfg.cluster, rep.describe).Described?
       case ScalingReplicas => AllModified(st.readers, rep.modified)
       case WaitReplicas => Aurora.Check(|st.readers|, cfg.Class(), rep.check).AllAvailable?
       case PerformingFailover => rep.failover
       case WaitWriterFailover => ReportsOtherWriter(cfg, DescribeCall(rep.again), st.writer)
       case ScalingWriter => Answer(rep.modified, 0)
       case _ => Aurora.Check(1, cfg.Class(), rep.check).AllAvailable?
  }

  /** A pass in time that meets such answers and whose write or delete call is taken. */
  ghost predicate Helpful(cfg: Config, st: Status, s: Step) {
    s.Pass? && s.fetched && s.answer == Stored && !cfg.Expired(s.at) && Moves(cfg, st, s.rep)
  }

  /** As long as the execution is there, every step of `more` helps it on. */
  ghost predicate Willing(cfg: Config, steps: seq<Step>, more: seq<Step>) {
    more != [] ==>
      var init := more[..|more| - 1];
      && Willing(cfg, steps, init)
      && (Run(cfg, steps + init).obj.Live? ==> Helpful(cfg, Run(cfg, steps + init).obj.status, more[|more| - 1]))
  }

  /** The execution announced its success, was deleted and did nothing after that. */
  ghost predicate Succeeded(cfg: Config, w: World) {
    && !w.obj.Live?
    && |w.log| >= 2
    && w.log[|w.log| - 2] == Notified(Body(cfg, Completed, Success))
    && w.log[|w.log| - 1] == DeleteCall(Stored)
  }

  lemma MovesRaise(cfg: Config, st: Status, rep: Replies)
    requires Shape(st) && cfg.Class() != "" && Moves(cfg, st, rep)
    ensures var r := Execute(cfg, st, rep);
            if st.phase == WaitOldWriter then r.done && !r.failed && r.status.phase == Completed
            else !r.done && Rank(r.status.phase) > Rank(st.phase) && Rank(r.status.phase) >= 2
  {
  }

  lemma HelpfulStep(cfg: Config, w: World, s: Step)
    requires cfg.supported && cfg.Class() != "" && w.obj.Live? && Shape(w.obj.status) && Helpful(cfg, w.obj.status, s)
    ensures var w' := Apply(cfg, w, s);
            if w.obj.status.phase == WaitOldWriter then Succeeded(cfg, w')
            else w'.obj.Live? && Rank(w'.obj.status.phase) > Rank(w.obj.status.phase) && Rank(w'.obj.status.phase) >= 2
  {
    MovesRaise(cfg, w.obj.status, s.rep);
  }

  /** After `n` such passes: still there in a later phase, or successful. */
  ghost predicate Advanced(cfg: Config, w: World, n: nat) {
    if w.obj.Live? then Shape(w.obj.status) && (n == 0 || Rank(w.obj.status.phase) > n) else Succeeded(cfg, w)
  }

  /** One more such pass. */
  lemma AdvanceStep(cfg: Config, w: World, s: Step, n: nat)
    requires cfg.supported && cfg.Class() != "" && Advanced(cfg, w, n)
    requires w.obj.Live? ==> Helpful(cfg, w.obj.status, s)
    requires Good(cfg, Apply(cfg, w, s))
    ensures Advanced(cfg, Apply(cfg, w, s), n + 1)
  {
    if w.obj.Live? {
      HelpfulStep(cfg, w, s);
    }
  }

  lemma {:induction false} WillingAdvances(cfg: Config, steps: seq<Step>, more: seq<Step>)
    requires cfg.supported && cfg.Class() != "" && Run(cfg, steps).obj.Live? && Willing(cfg, steps, more)
    ensures Advanced(cfg, Run(cfg, steps + more), |more|)
  {
    RunGood(cfg, steps + more);
    if more == [] {
      assert steps + more == steps;
    } else {
      var init, s := more[..|more| - 1], more[|more| - 1];
      WillingAdvances(cfg, steps, init);
      assert steps + more == (steps + init) + [s];
      RunSnoc(cfg, steps + init, s);
      AdvanceStep(cfg, Run(cfg, steps + init), s, |init|);
    }
  }

  /** Whatever happened before: seven passes that meet no obstacle complete the execution, and it ends by
      announcing success. */
  lemma CompletesInSeven(cfg: Config, steps: seq<Step>, more: seq<Step>)
    requires cfg.supported && cfg.Class() != "" && Run(cfg, steps).obj.Live?
    requires Willing(cfg, steps, more) && |more| >= 7
    ensures Succeeded(cfg, Run(cfg, steps + more))
  {
    WillingAdvances(cfg, steps, more);
  }

  // ---------------------------------------------------------------- such passes exist

  /** A reply whose cluster has `writer` as its only member. */
  function Alone(cluster: string, writer: string): Aurora.ClusterReply {
    Aurora.ClusterReply(Aurora.Clusters([Aurora.Cluster(Some(cluster), [Aurora.Member(Some(writer), Some(true))])]),
                        Aurora.InstancesFailed)
  }

  lemma AloneDescribes(cluster: string, writer: string)
    requires writer != ""
    ensures Aurora.Describe(cluster, Alone(cluster, writer)).Described?
    ensures Aurora.Describe(cluster, Alone(cluster, writer)).writer == writer
  {
    var ms := [Aurora.Member(Some(writer), Some(true))];
    assert Aurora.FlaggedWriter(ms) == writer;
  }

  function Kind(cfg: Config, st: Status): Replies {
    var up := Aurora.Instances([Aurora.Instance(None, None, Some("available"), Some(cfg.Class()))]);
    var reply := Alone(cfg.cluster, st.writer + "-next");
    Replies(Ready, reply, reply, seq(|st.readers| + 1, _ => true), seq(|st.readers| + 1, _ => up), true)
  }

  lemma KindMoves(cfg: Config, st: Status)
    requires Shape(st)
    ensures Moves(cfg, st, Kind(cfg, st))
  {
    var writer := st.writer + "-next";
    assert |writer| > |st.writer|;
    AloneDescribes(cfg.cluster, writer);
  }

  lemma {:induction false} WillingExists(cfg: Config, steps: seq<Step>, at: int, n: nat) returns (more: seq<Step>)
    requires !cfg.Expired(at)
    ensures |more| == n && Willing(cfg, steps, more)
  {
    more := [];
    if n > 0 {
      var init := WillingExists(cfg, steps, at, n - 1);
      var w := Run(cfg, steps + init);
      RunGood(cfg, steps + init);
      var s := Withdraw;
      if w.obj.Live? {
        KindMoves(cfg, w.obj.status);
        s := Pass(at, true, Kind(cfg, w.obj.status), Stored);
      }
      more := init + [s];
      assert more[..|more| - 1] == init;
    }
  }

  /** No dead end: in every run, as long as the execution is there and its time is not up, some continuation
      completes it with success. */
  lemma NoDeadEnd(cfg: Config, steps: seq<Step>, at: int) returns (more: seq<Step>)
    requires cfg.supported && cfg.Class() != "" && Run(cfg, steps).obj.Live? && !cfg.Expired(at)
    ensures |more| == 7 && Succeeded(cfg, Run(cfg, steps + more))
  {
    more := WillingExists(cfg, steps, at, 7);
    CompletesInSeven(cfg, steps, more);
  }
}
