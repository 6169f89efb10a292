/** Whole runs of one scaling execution: replies, refused writes, crashes and outside deletions are arbitrary. */
module ScaleRuns {
  import opened Base
  import opened ScaleProtocol
  import Aurora

  /** `Crash` is a pass whose process dies after its first `kept` events, before the store hears of it;
      `Withdraw` is a deletion by someone else and `Purge` the end of a deletion. */
  datatype Step =
    | Pass(at: int, fetched: bool, rep: Replies, answer: StoreReply)
    | Crash(at: int, rep: Replies, answer: StoreReply, kept: nat)
    | Withdraw
    | Purge

  function Apply(cfg: Config, w: World, s: Step): World {
    match s
    case Pass(at, fetched, rep, answer) => Reconcile(cfg, w, at, fetched, rep, answer)
    case Crash(at, rep, answer, kept) =>
      if w.obj.Live? && kept < |PassEvents(cfg, w.obj.status, at, rep, answer)| then
        w.(log := w.log + (PassEvents(cfg, w.obj.status, at, rep, answer)[..kept] + [Crashed]))
      else w
    case Withdraw => if w.obj.Live? then w.(obj := Terminating) else w
    case Purge => if w.obj.Terminating? then w.(obj := Gone) else w
  }

  const Created := World(Live(Status(NoPhase, "", [])), [])

  /** The world a run reaches. */
  function Run(cfg: Config, steps: seq<Step>): World {
    if steps == [] then Created else Apply(cfg, Run(cfg, steps[..|steps| - 1]), steps[|steps| - 1])
  }

  lemma RunSnoc(cfg: Config, steps: seq<Step>, s: Step)
    ensures Run(cfg, steps + [s]) == Apply(cfg, Run(cfg, steps), s)
  {
    assert (steps + [s])[..|steps|] == steps;
  }

  function Rank(p: Phase): nat {
    match p
    case NoPhase => 0
    case Initialization => 1
    case ScalingReplicas => 2
    case WaitReplicas => 3
    case PerformingFailover => 4
    case WaitWriterFailover => 5
    case ScalingWriter => 6
    case WaitOldWriter => 7
    case Completed => 8
    case TimedOut => 9
    case OtherPhase(_) => 10
  }

  // ---------------------------------------------------------------- evidence in the history

  /** The event is a check that reported every one of `ids` available at the requested class. */
  ghost predicate ReportsAvailable(cfg: Config, e: Event, ids: seq<string>) {
    && e.CheckCall? && e.ids == ids && e.instanceClass == cfg.Class()
    && forall i :: 0 <= i < |ids| ==> Aurora.Available(Aurora.ReplyAt(e.replies, i), cfg.Class())
  }

  ghost predicate ReportsOtherWriter(cfg: Config, e: Event, writer: string) {
    && e.DescribeCall?
    && Aurora.Describe(cfg.cluster, e.reply).Described?
    && Aurora.Describe(cfg.cluster, e.reply).writer != writer
  }

  ghost predicate ReadersModified(cfg: Config, readers: seq<string>, log: seq<Event>) {
    forall r :: r in readers ==> ModifyCall(r, cfg.Class(), true) in log
  }

  ghost predicate ReadersReady(cfg: Config, readers: seq<string>, log: seq<Event>) {
    exists a :: 0 <= a < |log| && ReportsAvailable(cfg, log[a], readers) && ReadersModified(cfg, readers, log[..a])
  }

  ghost predicate FailedOver(cfg: Config, readers: seq<string>, log: seq<Event>) {
    exists a :: 0 <= a < |log| && log[a] == FailoverCall(true) && ReadersReady(cfg, readers, log[..a])
  }

  /** In this order: every reader modified, all readers reported available at the requested class, a
      successful failover, and a description reporting another writer than the recorded one. */
  ghost predicate WriterMoved(cfg: Config, writer: string, readers: seq<string>, log: seq<Event>) {
    exists a :: 0 <= a < |log| && ReportsOtherWriter(cfg, log[a], writer) && FailedOver(cfg, readers, log[..a])
  }

  /** The writer that the last successful description reported. */
  function LatestWriter(cfg: Config, log: seq<Event>): Option<string> {
    if log == [] then None
    else
      var e := log[|log| - 1];
      if e.DescribeCall? && Aurora.Describe(cfg.cluster, e.reply).Described? then
        Some(Aurora.Describe(cfg.cluster, e.reply).writer)
      else LatestWriter(cfg, log[..|log| - 1])
  }

  // ---------------------------------------------------------------- the invariant

  ghost predicate Shape(st: Status) {
    && Rank(st.phase) <= 7
    && (Rank(st.phase) >= 2 ==> st.writer != "")
    && (2 <= Rank(st.phase) <= 5 ==> st.readers != [])
  }

  /** What an event may be while `st` is the stored status. */
  ghost predicate Expected(cfg: Config, st: Status, e: Event) {
    && (e.DescribeCall? ==> Rank(st.phase) < 6)
    && (e.ModifyCall? ==>
          && Rank(st.phase) >= 2 && e.instanceClass == cfg.Class()
          && (e.id in st.readers || (e.id == st.writer && Rank(st.phase) >= 6)))
    && (e == FailoverCall(true) ==> Rank(st.phase) >= 4 && st.readers != [])
  }

  ghost predicate Evidence(cfg: Config, st: Status, log: seq<Event>) {
    && (Rank(st.phase) >= 3 ==> ReadersModified(cfg, st.readers, log))
    && (Rank(st.phase) >= 7 ==> ModifyCall(st.writer, cfg.Class(), true) in log)
    && (st.readers != [] && Rank(st.phase) >= 4 ==> ReadersReady(cfg, st.readers, log))
    && (st.readers != [] && Rank(st.phase) >= 5 ==> FailedOver(cfg, st.readers, log))
    && (st.readers != [] && Rank(st.phase) >= 6 ==> WriterMoved(cfg, st.writer, st.readers, log))
    && (st.readers != [] && Rank(st.phase) >= 6 ==>
          LatestWriter(cfg, log).Some? && LatestWriter(cfg, log).value != st.writer)
  }

  ghost predicate Targets(cfg: Config, st: Status, log: seq<Event>) {
    forall e :: e in log && !e.DescribeCall? ==> Expected(cfg, st, e)
  }

  /** The recorded writer and readers are what some description reported. */
  ghost predicate Recorded(cfg: Config, st: Status, log: seq<Event>) {
    Rank(st.phase) >= 2 ==>
      exists i :: 0 <= i < |log| && log[i].DescribeCall? &&
                  Aurora.Describe(cfg.cluster, log[i].reply) == Aurora.Described(st.writer, st.readers)
  }

  ghost predicate Coherent(cfg: Config, st: Status, log: seq<Event>) {
    Shape(st) && Evidence(cfg, st, log) && Targets(cfg, st, log) && Recorded(cfg, st, log)
  }

  // ---------------------------------------------------------------- keeping it

  lemma EvidenceGrows(cfg: Config, writer: string, readers: seq<string>, log: seq<Event>, more: seq<Event>)
    ensures ReadersModified(cfg, readers, log) ==> ReadersModified(cfg, readers, log + more)
    ensures ReadersReady(cfg, readers, log) ==> ReadersReady(cfg, readers, log + more)
    ensures FailedOver(cfg, readers, log) ==> FailedOver(cfg, readers, log + more)
    ensures WriterMoved(cfg, writer, readers, log) ==> WriterMoved(cfg, writer, readers, log + more)
  {
    forall a | 0 <= a < |log| ensures (log + more)[a] == log[a] && (log + more)[..a] == log[..a] {}
  }

  lemma {:induction false} LatestWriterKept(cfg: Config, log: seq<Event>, more: seq<Event>)
    requires forall e :: e in more ==> !e.DescribeCall?
    ensures LatestWriter(cfg, log + more) == LatestWriter(cfg, log)
  {
    if more == [] {
      assert log + more == log;
    } else {
      var init := more[..|more| - 1];
      LatestWriterKept(cfg, log, init);
      assert (log + more)[..|log + more| - 1] == log + init;
      assert more[|more| - 1] in more;
    }
  }

  lemma CoherentGrows(cfg: Config, st: Status, log: seq<Event>, more: seq<Event>)
    requires Coherent(cfg, st, log)
    requires forall e :: e in more ==> Expected(cfg, st, e)
    ensures Coherent(cfg, st, log + more)
  {
    EvidenceGrows(cfg, st.writer, st.readers, log, more);
    if Rank(st.phase) >= 2 {
      var i :| 0 <= i < |log| && log[i].DescribeCall? &&
               Aurora.Describe(cfg.cluster, log[i].reply) == Aurora.Described(st.writer, st.readers);
      assert (log + more)[i] == log[i];
    }
    if Rank(st.phase) >= 6 {
      LatestWriterKept(cfg, log, more);
    }
  }

  lemma PassExpected(cfg: Config, st: Status, at: int, rep: Replies, answer: StoreReply)
    requires Shape(st)
    ensures forall e :: e in PassEvents(cfg, st, at, rep, answer) ==> Expected(cfg, st, e)
  {
    var r := Execute(cfg, st, rep);
    forall e | e in r.calls ensures Expected(cfg, st, e) {
      if st.phase == ScalingReplicas {
        var k :| 0 <= k < |r.calls| && r.calls[k] == e;
      }
    }
  }

  /** The handler itself neither notifies nor deletes. */
  lemma CallsArePlain(cfg: Config, st: Status, rep: Replies, e: Event)
    requires Shape(st) && e in Execute(cfg, st, rep).calls
    ensures !e.Notified? && !e.DeleteCall?
  {
    if st.phase == ScalingReplicas {
      var calls := Execute(cfg, st, rep).calls;
      var k :| 0 <= k < |calls| && calls[k] == e;
    }
  }

  lemma AfterInitialize(cfg: Config, st: Status, log: seq<Event>, rep: Replies)
    requires Coherent(cfg, st, log) && st.phase == Initialization
    ensures var r := Initialize(cfg, st, rep); Coherent(cfg, r.status, log + r.calls)
  {
    var r := Initialize(cfg, st, rep);
    if r.status == st {
      CoherentGrows(cfg, st, log, r.calls);
    } else {
      forall e | e in log + r.calls && !e.DescribeCall? ensures Expected(cfg, r.status, e) {}
      assert (log + r.calls)[|log|] == DescribeCall(rep.describe);
    }
  }

  /** Raising the phase keeps the invariant once the new phase's evidence is there. */
  lemma Promote(cfg: Config, st: Status, phase: Phase, log: seq<Event>)
    requires Coherent(cfg, st, log)
    requires Rank(st.phase) <= Rank(phase) && Shape(st.(phase := phase))
    requires Rank(phase) >= 2 ==> Rank(st.phase) >= 2
    requires Evidence(cfg, st.(phase := phase), log)
    ensures Coherent(cfg, st.(phase := phase), log)
  {
    forall e | e in log && !e.DescribeCall? ensures Expected(cfg, st.(phase := phase), e) {
      assert Expected(cfg, st, e);
    }
  }

  lemma AllCalled(readers: seq<string>, cfg: Config, replies: seq<bool>, log: seq<Event>)
    requires AllModified(readers, replies)
    ensures ReadersModified(cfg, readers, log + ModifyCalls(readers, cfg.Class(), replies))
  {
    var calls := ModifyCalls(readers, cfg.Class(), replies);
    CompleteCalls(readers, cfg.Class(), replies, 0);
    forall x | x in readers ensures ModifyCall(x, cfg.Class(), true) in log + calls {
      var k :| 0 <= k < |readers| && readers[k] == x;
      assert calls[k] in calls;
    }
  }

  lemma PromoteToWait(cfg: Config, st: Status, log: seq<Event>)
    requires Coherent(cfg, st, log) && st.phase == ScalingReplicas && ReadersModified(cfg, st.readers, log)
    ensures Coherent(cfg, st.(phase := WaitReplicas), log)
  {
    Promote(cfg, st, WaitReplicas, log);
  }

  lemma AfterScaleReplicas(cfg: Config, st: Status, log: seq<Event>, rep: Replies)
    requires Coherent(cfg, st, log + ModifyCalls(st.readers, cfg.Class(), rep.modified)) && st.phase == ScalingReplicas
    ensures var r := ScaleReplicas(cfg, st, rep); Coherent(cfg, r.status, log + r.calls)
  {
    if AllModified(st.readers, rep.modified) {
      AllCalled(st.readers, cfg, rep.modified, log);
      PromoteToWait(cfg, st, log + ModifyCalls(st.readers, cfg.Class(), rep.modified));
    }
  }

  lemma AfterAwaitReplicas(cfg: Config, st: Status, log: seq<Event>, rep: Replies)
    requires Coherent(cfg, st, log) && st.phase == WaitReplicas
    ensures var r := AwaitReplicas(cfg, st, rep); Coherent(cfg, r.status, log + r.calls)
  {
    var r := AwaitReplicas(cfg, st, rep);
    CoherentGrows(cfg, st, log, r.calls);
    if r.status != st {
      var all := log + r.calls;
      assert all[..|log|] == log;
      assert ReportsAvailable(cfg, all[|log|], st.readers);
      assert ReadersReady(cfg, r.status.readers, all);
    }
  }

  lemma AfterFailOver(cfg: Config, st: Status, log: seq<Event>, rep: Replies)
    requires Coherent(cfg, st, log) && st.phase == PerformingFailover
    ensures var r := FailOver(st, rep); Coherent(cfg, r.status, log + r.calls)
  {
    var r := FailOver(st, rep);
    CoherentGrows(cfg, st, log, r.calls);
    if r.status != st {
      var all := log + r.calls;
      assert all[..|log|] == log;
      assert ReadersReady(cfg, r.status.readers, log);
      assert all[|log|] == FailoverCall(true);
      assert FailedOver(cfg, r.status.readers, all);
    }
  }

  lemma AwaitFailoverResult(cfg: Config, st: Status, rep: Replies)
    requires st.writer != ""
    ensures var r := AwaitFailover(cfg, st, rep);
            && r.calls == [DescribeCall(rep.again)]
            && (r.status == st ||
                (r.status == st.(phase := ScalingWriter) &&
                 ReportsOtherWriter(cfg, DescribeCall(rep.again), st.writer)))
  {
    assert [] + [DescribeCall(rep.again)] == [DescribeCall(rep.again)];
  }

  lemma WriterSeen(cfg: Config, st: Status, log: seq<Event>, reply: Aurora.ClusterReply)
    requires FailedOver(cfg, st.readers, log) && ReportsOtherWriter(cfg, DescribeCall(reply), st.writer)
    ensures var all := log + [DescribeCall(reply)];
            && WriterMoved(cfg, st.writer, st.readers, all)
            && LatestWriter(cfg, all).Some? && LatestWriter(cfg, all).value != st.writer
  {
    var all := log + [DescribeCall(reply)];
    assert all[..|log|] == log;
    assert all[|log|] == DescribeCall(reply);
  }

  lemma PromoteToWriter(cfg: Config, st: Status, log: seq<Event>)
    requires Coherent(cfg, st, log) && st.phase == WaitWriterFailover
    requires WriterMoved(cfg, st.writer, st.readers, log)
    requires LatestWriter(cfg, log).Some? && LatestWriter(cfg, log).value != st.writer
    ensures Coherent(cfg, st.(phase := ScalingWriter), log)
  {
    Promote(cfg, st, ScalingWriter, log);
  }

  lemma DescribedStays(cfg: Config, st: Status, log: seq<Event>, reply: Aurora.ClusterReply)
    requires Coherent(cfg, st, log) && Rank(st.phase) < 6
    ensures Coherent(cfg, st, log + [DescribeCall(reply)])
  {
    CoherentGrows(cfg, st, log, [DescribeCall(reply)]);
  }

  lemma FailoverObserved(cfg: Config, st: Status, log: seq<Event>, reply: Aurora.ClusterReply)
    requires Coherent(cfg, st, log) && st.phase == WaitWriterFailover
    requires ReportsOtherWriter(cfg, DescribeCall(reply), st.writer)
    ensures Coherent(cfg, st.(phase := ScalingWriter), log + [DescribeCall(reply)])
  {
    WriterSeen(cfg, st, log, reply);
    DescribedStays(cfg, st, log, reply);
    PromoteToWriter(cfg, st, log + [DescribeCall(reply)]);
  }

  lemma AfterAwaitFailover(cfg: Config, st: Status, log: seq<Event>, rep: Replies)
    requires Coherent(cfg, st, log) && st.phase == WaitWriterFailover
    ensures var r := AwaitFailover(cfg, st, rep); Coherent(cfg, r.status, log + r.calls)
  {
    AwaitFailoverResult(cfg, st, rep);
    if AwaitFailover(cfg, st, rep).status == st {
      DescribedStays(cfg, st, log, rep.again);
    } else {
      FailoverObserved(cfg, st, log, rep.again);
    }
  }

  lemma WriterPhaseResult(cfg: Config, st: Status, rep: Replies)
    requires Shape(st) && Rank(st.phase) >= 6
    ensures var r := ExecutePhase(cfg, st, rep);
            && (forall e :: e in r.calls ==> Expected(cfg, st, e))
            && (r.done || r.status == st ||
                (r.status == st.(phase := WaitOldWriter) && ModifyCall(st.writer, cfg.Class(), true) in r.calls))
  {
  }

  lemma WriterPhaseKeeps(cfg: Config, st: Status, log: seq<Event>, r: Result)
    requires Coherent(cfg, st, log) && Rank(st.phase) >= 6
    requires forall e :: e in r.calls ==> Expected(cfg, st, e)
    requires r.status == st ||
             (r.status == st.(phase := WaitOldWriter) && ModifyCall(st.writer, cfg.Class(), true) in r.calls)
    ensures Coherent(cfg, r.status, log + r.calls)
  {
    CoherentGrows(cfg, st, log, r.calls);
    Promote(cfg, st, r.status.phase, log + r.calls);
  }

  lemma AfterWriterPhases(cfg: Config, st: Status, log: seq<Event>, rep: Replies)
    requires Coherent(cfg, st, log) && Rank(st.phase) >= 6
    ensures var r := ExecutePhase(cfg, st, rep); !r.done ==> Coherent(cfg, r.status, log + r.calls)
  {
    WriterPhaseResult(cfg, st, rep);
    var r := ExecutePhase(cfg, st, rep);
    if !r.done {
      WriterPhaseKeeps(cfg, st, log, r);
    }
  }

  lemma ExecuteKeeps(cfg: Config, st: Status, log: seq<Event>, rep: Replies)
    requires Coherent(cfg, st, log)
    ensures var r := Execute(cfg, st, rep); !r.done ==> Coherent(cfg, r.status, log + r.calls)
  {
    if rep.setup == Ready && cfg.Class() != "" {
      var st' := Started(st);
      Promote(cfg, st, st'.phase, log);
      match st'.phase
      case Initialization => AfterInitialize(cfg, st', log, rep);
      case ScalingReplicas =>
        CoherentGrows(cfg, st, log, ModifyCalls(st.readers, cfg.Class(), rep.modified));
        AfterScaleReplicas(cfg, st', log, rep);
      case WaitReplicas => AfterAwaitReplicas(cfg, st', log, rep);
      case PerformingFailover => AfterFailOver(cfg, st', log, rep);
      case WaitWriterFailover => AfterAwaitFailover(cfg, st', log, rep);
      case _ => AfterWriterPhases(cfg, st', log, rep);
    } else {
      assert log + [] == log;
    }
  }

  ghost predicate Good(cfg: Config, w: World) {
    w.obj.Live? ==> Coherent(cfg, w.obj.status, w.log)
  }

  lemma PassKeeps(cfg: Config, st: Status, log: seq<Event>, at: int, rep: Replies, answer: StoreReply)
    requires Coherent(cfg, st, log)
    ensures Good(cfg, World(PassObject(cfg, st, at, rep, answer), log + PassEvents(cfg, st, at, rep, answer)))
  {
    var es := PassEvents(cfg, st, at, rep, answer);
    PassExpected(cfg, st, at, rep, answer);
    CoherentGrows(cfg, st, log, es);
    var r := Execute(cfg, st, rep);
    if !cfg.Expired(at) && cfg.supported && !r.done && answer == Stored {
      ExecuteKeeps(cfg, st, log, rep);
      CoherentGrows(cfg, r.status, log + r.calls, [StatusWrite(r.status, answer)]);
      assert log + es == log + r.calls + [StatusWrite(r.status, answer)];
    }
  }

  lemma ApplyKeeps(cfg: Config, w: World, s: Step)
    requires Good(cfg, w)
    ensures Good(cfg, Apply(cfg, w, s))
  {
    if w.obj.Live? {
      var st := w.obj.status;
      match s
      case Pass(at, fetched, rep, answer) => PassKeeps(cfg, st, w.log, at, rep, answer);
      case Crash(at, rep, answer, kept) =>
        PassExpected(cfg, st, at, rep, answer);
        var es := PassEvents(cfg, st, at, rep, answer);
        if kept < |es| {
          CoherentGrows(cfg, st, w.log, es[..kept] + [Crashed]);
        }
      case _ =>
    }
  }

  lemma {:induction false} RunGood(cfg: Config, steps: seq<Step>)
    ensures Good(cfg, Run(cfg, steps))
  {
    if steps != [] {
      RunGood(cfg, steps[..|steps| - 1]);
      ApplyKeeps(cfg, Run(cfg, steps[..|steps| - 1]), steps[|steps| - 1]);
    }
  }
}
