/** How a scaling run advances: its phases move forward and its failovers are bounded. */
module ScaleProgress {
  import opened Base
  import opened ScaleProtocol
  import opened ScaleRuns
  import opened ScaleSafety

  // ---------------------------------------------------------------- phases only move forward

  ghost predicate Forward(before: Status, later: Status) {
    && Rank(before.phase) <= Rank(later.phase)
    && (Rank(before.phase) >= 2 ==> later.writer == before.writer && later.readers == before.readers)
  }

  lemma ExecuteForward(cfg: Config, st: Status, rep: Replies)
    requires Shape(st)
    ensures Forward(st, Execute(cfg, st, rep).status)
  {
  }

  lemma PassForward(cfg: Config, st: Status, at: int, rep: Replies, answer: StoreReply)
    requires Shape(st) && PassObject(cfg, st, at, rep, answer).Live?
    ensures Forward(st, PassObject(cfg, st, at, rep, answer).status)
  {
    ExecuteForward(cfg, st, rep);
  }

  /** Between any two points of a run at which the execution is stored, its phase has not moved back and,
      once the cluster is recorded, its writer and readers are the same; the stored phase is one of the
      first eight, so never completed, timed out or unknown. */
  lemma {:induction false} StatusForward(cfg: Config, steps: seq<Step>, more: seq<Step>)
    requires Run(cfg, steps + more).obj.Live?
    ensures Run(cfg, steps).obj.Live?
    ensures Forward(Run(cfg, steps).obj.status, Run(cfg, steps + more).obj.status)
    ensures Shape(Run(cfg, steps + more).obj.status)
  {
    RunGood(cfg, steps + more);
    if more == [] {
      assert steps + more == steps;
    } else {
      var init, s := more[..|more| - 1], more[|more| - 1];
      assert steps + more == (steps + init) + [s];
      RunSnoc(cfg, steps + init, s);
      StatusForward(cfg, steps, init);
      if s.Pass? && s.fetched {
        PassForward(cfg, Run(cfg, steps + init).obj.status, s.at, s.rep, s.answer);
      }
    }
  }

  lemma ShapedCalls(cfg: Config, st: Status, rep: Replies)
    requires Shape(st)
    ensures var r := Execute(cfg, st, rep);
            forall i :: 0 <= i < |r.calls| && r.calls[i].DescribeCall? ==> Rank(st.phase) < 6 && |r.calls| == 1
  {
  }

  lemma ShapedErrors(cfg: Config, st: Status, rep: Replies)
    requires Shape(st)
    ensures var r := Execute(cfg, st, rep);
            r.done && r.failed <==> rep.setup == Misconfigured || (rep.setup == Ready && cfg.Class() == "")
  {
  }

  /** In no run does a pass rediscover the writer or meet an unknown phase: it describes the cluster at most
      once, never once the writer is being resized, and ends with an error exactly on its set-up or parameters. */
  lemma NoRecoveryBranch(cfg: Config, steps: seq<Step>, rep: Replies)
    requires Run(cfg, steps).obj.Live?
    ensures var st := Run(cfg, steps).obj.status;
            var r := Execute(cfg, st, rep);
            && (forall i :: 0 <= i < |r.calls| && r.calls[i].DescribeCall? ==> Rank(st.phase) < 6 && |r.calls| == 1)
            && (r.done && r.failed <==> rep.setup == Misconfigured || (rep.setup == Ready && cfg.Class() == ""))
  {
    RunGood(cfg, steps);
    ShapedCalls(cfg, Run(cfg, steps).obj.status, rep);
    ShapedErrors(cfg, Run(cfg, steps).obj.status, rep);
  }

  // ---------------------------------------------------------------- failovers

  predicate IsFailover(e: Event) {
    e == FailoverCall(true)
  }

  /** The store did not take over what the pass did: its write was refused or the process died. */
  predicate IsLoss(e: Event) {
    e.Crashed? || (e.StatusWrite? && e.answer == Refused)
  }

  ghost predicate FailoversCovered(w: World) {
    && Count(IsFailover, w.log) <= Count(IsLoss, w.log) + 1
    && (w.obj.Live? && Rank(w.obj.status.phase) <= 4 ==> Count(IsFailover, w.log) <= Count(IsLoss, w.log))
  }

  lemma FailoverPass(cfg: Config, st: Status, at: int, rep: Replies, answer: StoreReply)
    requires Shape(st) && FailoverCall(true) in PassEvents(cfg, st, at, rep, answer)
    ensures st.phase == PerformingFailover
    ensures PassEvents(cfg, st, at, rep, answer) ==
            [FailoverCall(true)] + [StatusWrite(st.(phase := WaitWriterFailover), answer)]
    ensures PassObject(cfg, st, at, rep, answer) == Written(Live(st), st.(phase := WaitWriterFailover), answer)
  {
  }

  lemma CountSingle<T>(p: T -> bool, a: T)
    ensures Count(p, [a]) == if p(a) then 1 else 0
  {
    assert [a][..0] == [];
  }

  lemma CountAppend<T>(p: T -> bool, s: seq<T>, a: T)
    ensures Count(p, s + [a]) == Count(p, s) + if p(a) then 1 else 0
  {
    CountConcat(p, s, [a]);
    CountSingle(p, a);
  }

  lemma CountsWithoutFailover(log: seq<Event>, es: seq<Event>)
    requires FailoverCall(true) !in es
    ensures Count(IsFailover, log + es) == Count(IsFailover, log)
    ensures Count(IsLoss, log + es) >= Count(IsLoss, log)
  {
    CountConcat(IsFailover, log, es);
    CountConcat(IsLoss, log, es);
    CountZero(IsFailover, es);
  }

  lemma CountsWithFailover(log: seq<Event>, e: Event)
    requires e.StatusWrite?
    ensures var all := log + ([FailoverCall(true)] + [e]);
            && Count(IsFailover, all) == Count(IsFailover, log) + 1
            && Count(IsLoss, all) == Count(IsLoss, log) + if e.answer == Refused then 1 else 0
  {
    assert log + ([FailoverCall(true)] + [e]) == log + [FailoverCall(true)] + [e];
    CountAppend(IsFailover, log, FailoverCall(true));
    CountAppend(IsFailover, log + [FailoverCall(true)], e);
    CountAppend(IsLoss, log, FailoverCall(true));
    CountAppend(IsLoss, log + [FailoverCall(true)], e);
  }

  /** A pass seen only through its events and the object it leaves. */
  lemma PassCoversFailovers(w: World, es: seq<Event>, obj: Object)
    requires w.obj.Live? && FailoversCovered(w)
    requires FailoverCall(true) in es ==>
               exists answer :: w.obj.status.phase == PerformingFailover &&
                 es == [FailoverCall(true)] + [StatusWrite(w.obj.status.(phase := WaitWriterFailover), answer)] &&
                 obj == Written(w.obj, w.obj.status.(phase := WaitWriterFailover), answer)
    requires obj.Live? ==> Forward(w.obj.status, obj.status)
    ensures FailoversCovered(World(obj, w.log + es))
  {
    if FailoverCall(true) in es {
      CountsWithFailover(w.log, es[1]);
    } else {
      CountsWithoutFailover(w.log, es);
    }
  }

  lemma CrashCoversFailovers(cfg: Config, w: World, es: seq<Event>, kept: nat)
    requires FailoversCovered(w) && w.obj.Live? && kept < |es|
    requires FailoverCall(true) in es ==>
               w.obj.status.phase == PerformingFailover && |es| == 2 && es[0] == FailoverCall(true)
    ensures FailoversCovered(w.(log := w.log + (es[..kept] + [Crashed])))
  {
    var head := es[..kept];
    assert w.log + (head + [Crashed]) == w.log + head + [Crashed];
    CountAppend(IsFailover, w.log + head, Crashed);
    CountAppend(IsLoss, w.log + head, Crashed);
    if FailoverCall(true) in head {
      assert head == [FailoverCall(true)];
      CountAppend(IsFailover, w.log, FailoverCall(true));
      CountAppend(IsLoss, w.log, FailoverCall(true));
    } else {
      CountsWithoutFailover(w.log, head);
    }
  }

  lemma ApplyCoversFailovers(cfg: Config, w: World, s: Step)
    requires Good(cfg, w) && FailoversCovered(w)
    ensures FailoversCovered(Apply(cfg, w, s))
  {
    if w.obj.Live? && s.Pass? && s.fetched {
      var st := w.obj.status;
      var es := PassEvents(cfg, st, s.at, s.rep, s.answer);
      var obj := PassObject(cfg, st, s.at, s.rep, s.answer);
      if FailoverCall(true) in es {
        FailoverPass(cfg, st, s.at, s.rep, s.answer);
      }
      if obj.Live? {
        PassForward(cfg, st, s.at, s.rep, s.answer);
      }
      PassCoversFailovers(w, es, obj);
    } else if w.obj.Live? && s.Crash? {
      var es := PassEvents(cfg, w.obj.status, s.at, s.rep, s.answer);
      if FailoverCall(true) in es {
        FailoverPass(cfg, w.obj.status, s.at, s.rep, s.answer);
      }
      if s.kept < |es| {
        CrashCoversFailovers(cfg, w, es, s.kept);
      }
    }
  }

  /** Each failover beyond the first is paid for by a refused status write or a crash. */
  lemma {:induction false} FailoversBounded(cfg: Config, steps: seq<Step>)
    ensures FailoversCovered(Run(cfg, steps))
  {
    if steps != [] {
      var init := steps[..|steps| - 1];
      FailoversBounded(cfg, init);
      RunGood(cfg, init);
      ApplyCoversFailovers(cfg, Run(cfg, init), steps[|steps| - 1]);
    }
  }

  /** A run that announces success without losses failed over exactly once, or never if it has no readers. */
  lemma FailoversOfSuccess(cfg: Config, steps: seq<Step>, s: Step, e: Event)
    requires e in Added(cfg, Run(cfg, steps), s) && e.Notified? && e.body.status == Success
    ensures var w := Run(cfg, steps);
            && (w.obj.status.readers == [] ==> Count(IsFailover, w.log) == 0)
            && (w.obj.status.readers != [] ==> 1 <= Count(IsFailover, w.log) <= 1 + Count(IsLoss, w.log))
  {
    var w := Run(cfg, steps);
    RunGood(cfg, steps);
    FailoversBounded(cfg, steps);
    SuccessPhase(cfg, w.obj.status, s, e);
    CountZero(IsFailover, w.log);
    if w.obj.status.readers == [] {
      forall x | x in w.log ensures !IsFailover(x) {
        assert x.FailoverCall? ==> Expected(cfg, w.obj.status, x);
      }
    } else {
      var a :| 0 <= a < |w.log| && w.log[a] == FailoverCall(true) &&
               ReadersReady(cfg, w.obj.status.readers, w.log[..a]);
      assert IsFailover(w.log[a]) && w.log[a] in w.log;
    }
  }
}
