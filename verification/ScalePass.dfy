/** One pass of a scaling execution, told by the raw answers it gets: what it calls, how it goes on and how it ends. */
module ScalePass {
  import opened Base
  import opened ScaleProtocol
  import opened ScaleRuns
  import opened ScaleSafety
  import Aurora

  // ---------------------------------------------------------------- the handler

  /** The execution names an instance class and the target with its credentials is at hand. */
  ghost predicate Prepared(cfg: Config, rep: Replies) {
    rep.setup == Ready && cfg.parameters.Some? && cfg.parameters.value != ""
  }

  predicate ClusterCall(e: Event) {
    e.DescribeCall? || e.ModifyCall? || e.CheckCall? || e.FailoverCall?
  }

  /** The cloud turned the call down, or its reply could not be used. */
  ghost predicate Refusal(cfg: Config, e: Event) {
    || (e.DescribeCall? && Aurora.Describe(cfg.cluster, e.reply).DescribeFailed?)
    || (e.ModifyCall? && !e.ok)
    || (e.CheckCall? && Aurora.Check(|e.ids|, e.instanceClass, e.replies).CheckFailed?)
    || (e.FailoverCall? && !e.ok)
  }

  /** The answer is the one the phase waits for: for a description a writer, and once one is on record another
      than that, for a check that every instance is available, for the others that they were accepted. */
  ghost predicate Granted(cfg: Config, st: Status, e: Event) {
    || (e.DescribeCall? && Aurora.Describe(cfg.cluster, e.reply).Described? &&
        (st.phase in {NoPhase, Initialization} || Aurora.Describe(cfg.cluster, e.reply).writer != st.writer))
    || (e.ModifyCall? && e.ok)
    || (e.CheckCall? && Aurora.Check(|e.ids|, e.instanceClass, e.replies).AllAvailable?)
    || (e.FailoverCall? && e.ok)
  }

  /** The status once the phase has got what it waits for. */
  ghost predicate Advances(cfg: Config, st: Status, last: Event, after: Status) {
    match st.phase
    case NoPhase => Discovers(cfg, last, after)
    case Initialization => Discovers(cfg, last, after)
    case ScalingReplicas => after == Status(WaitReplicas, st.writer, st.readers)
    case WaitReplicas => after == Status(PerformingFailover, st.writer, st.readers)
    case PerformingFailover => after == Status(WaitWriterFailover, st.writer, st.readers)
    case WaitWriterFailover => after == Status(ScalingWriter, st.writer, st.readers)
    case ScalingWriter => after == Status(WaitOldWriter, st.writer, st.readers)
    case _ => after == Status(Completed, st.writer, st.readers)
  }

  /** The description goes on record, and the readers come first if there are any. */
  ghost predicate Discovers(cfg: Config, last: Event, after: Status) {
    && last.DescribeCall?
    && Aurora.Describe(cfg.cluster, last.reply) == Aurora.Described(after.writer, after.readers)
    && after.phase == if |after.readers| > 0 then ScalingReplicas else ScalingWriter
  }

  /** When a pass that neither failed nor finished asks to be repeated, in nanoseconds. */
  function Pause(last: Event, granted: bool): Requeue {
    match last
    case ModifyCall(_, _, _) => After(30_000_000_000)
    case FailoverCall(_) => After(30_000_000_000)
    case DescribeCall(_) => if granted then AtOnce else After(30_000_000_000)
    case _ => if granted then AtOnce else After(60_000_000_000)
  }

  /** The calls of each phase. Those over the readers go down the list and stop at the first that is refused. */
  ghost predicate CallsFor(cfg: Config, st: Status, rep: Replies, calls: seq<Event>)
    requires cfg.parameters.Some?
  {
    match st.phase
    case ScalingReplicas =>
      && 0 < |calls| <= |st.readers|
      && (forall k :: 0 <= k < |calls| ==>
            calls[k] == ModifyCall(st.readers[k], cfg.parameters.value, k < |rep.modified| && rep.modified[k]))
      && (forall k :: 0 <= k < |calls| - 1 ==> calls[k].ok)
      && (|calls| < |st.readers| ==> !calls[|calls| - 1].ok)
    case WaitReplicas => calls == [CheckCall(st.readers, cfg.parameters.value, rep.check)]
    case PerformingFailover => calls == [FailoverCall(rep.failover)]
    case WaitWriterFailover => calls == [DescribeCall(rep.again)]
    case ScalingWriter =>
      calls == [ModifyCall(st.writer, cfg.parameters.value, 0 < |rep.modified| && rep.modified[0])]
    case WaitOldWriter => calls == [CheckCall([st.writer], cfg.parameters.value, rep.check)]
    case _ => calls == [DescribeCall(rep.describe)]
  }

  /** The result of a pass follows from its last call: it fails exactly on a refusal, and otherwise the status
      advances exactly when that call was granted. */
  ghost predicate FollowsLast(cfg: Config, st: Status, r: Result)
    requires r.calls != []
  {
    var last := r.calls[|r.calls| - 1];
    && (r.failed <==> Refusal(cfg, last))
    && (Granted(cfg, st, last) ==> Advances(cfg, st, last, r.status))
    && (!Granted(cfg, st, last) ==>
          r.status == Status(if st.phase == NoPhase then Initialization else st.phase, st.writer, st.readers))
    && (r.done <==> st.phase == WaitOldWriter && Granted(cfg, st, last))
    && r.requeue == if r.failed || r.done then NoRequeue else Pause(last, Granted(cfg, st, last))
  }

  /** A status on which no rediscovery is called for: the phase is one of the first eight, there are readers while they
      are resized, and the writer is on record from the failover on. */
  ghost predicate Regular(st: Status) {
    && Rank(st.phase) <= 7
    && (st.phase == ScalingReplicas ==> |st.readers| > 0)
    && (5 <= Rank(st.phase) ==> st.writer != "")
  }

  /** The calls of the phases that look at the writer on record. */
  lemma WriterCalls(cfg: Config, st: Status, rep: Replies)
    requires Regular(st) && st.phase in {WaitWriterFailover, ScalingWriter, WaitOldWriter} && Prepared(cfg, rep)
    ensures CallsFor(cfg, st, rep, Execute(cfg, st, rep).calls)
  {
    match st.phase
    case WaitWriterFailover => assert [] + [DescribeCall(rep.again)] == [DescribeCall(rep.again)];
    case ScalingWriter =>
      var e := ModifyCall(st.writer, cfg.Class(), Answer(rep.modified, 0));
      assert [] + [e] == [e];
    case WaitOldWriter =>
      var e := CheckCall([st.writer], cfg.Class(), rep.check);
      assert [] + [e] == [e];
  }

  lemma PhaseCalls(cfg: Config, st: Status, rep: Replies)
    requires Regular(st) && Prepared(cfg, rep)
    ensures CallsFor(cfg, st, rep, Execute(cfg, st, rep).calls)
  {
    if st.phase in {WaitWriterFailover, ScalingWriter, WaitOldWriter} {
      WriterCalls(cfg, st, rep);
    }
  }

  lemma ReadersPhase(cfg: Config, st: Status, rep: Replies)
    requires Regular(st) && st.phase == ScalingReplicas && Prepared(cfg, rep)
    ensures var r := Execute(cfg, st, rep); r.calls != [] && FollowsLast(cfg, st, r)
  {
    var calls := ModifyCalls(st.readers, cfg.Class(), rep.modified);
    var last := calls[|calls| - 1];
    if last.ok {
      forall k | 0 <= k < |st.readers| ensures Answer(rep.modified, k) {
        assert calls[k].ok;
      }
    }
  }

  lemma DescribingPhase(cfg: Config, st: Status, rep: Replies)
    requires Regular(st) && st.phase in {NoPhase, Initialization, WaitWriterFailover} && Prepared(cfg, rep)
    ensures var r := Execute(cfg, st, rep); r.calls != [] && FollowsLast(cfg, st, r)
  {
    PhaseCalls(cfg, st, rep);
  }

  lemma CheckingPhase(cfg: Config, st: Status, rep: Replies)
    requires Regular(st) && st.phase in {WaitReplicas, WaitOldWriter} && Prepared(cfg, rep)
    ensures var r := Execute(cfg, st, rep); r.calls != [] && FollowsLast(cfg, st, r)
  {
    PhaseCalls(cfg, st, rep);
  }

  lemma ActingPhase(cfg: Config, st: Status, rep: Replies)
    requires Regular(st) && st.phase in {PerformingFailover, ScalingWriter} && Prepared(cfg, rep)
    ensures var r := Execute(cfg, st, rep); r.calls != [] && FollowsLast(cfg, st, r)
  {
    PhaseCalls(cfg, st, rep);
  }

  lemma PhaseFollows(cfg: Config, st: Status, rep: Replies)
    requires Regular(st) && Prepared(cfg, rep)
    ensures var r := Execute(cfg, st, rep); r.calls != [] && FollowsLast(cfg, st, r)
  {
    match st.phase
    case ScalingReplicas => ReadersPhase(cfg, st, rep);
    case WaitReplicas => CheckingPhase(cfg, st, rep);
    case PerformingFailover => ActingPhase(cfg, st, rep);
    case ScalingWriter => ActingPhase(cfg, st, rep);
    case WaitOldWriter => CheckingPhase(cfg, st, rep);
    case _ => DescribingPhase(cfg, st, rep);
  }

  /** The same pass with the writer on record, after one description. */
  function Behind(e: Event, r: Result): Result {
    r.(calls := [e] + r.calls)
  }

  /** A writer that is missing from the record is looked up first; once found, the pass goes on as if it had been on
      record. */
  lemma RediscoveryFinds(cfg: Config, st: Status, rep: Replies)
    requires Prepared(cfg, rep) && st.phase in {WaitWriterFailover, ScalingWriter, WaitOldWriter} && st.writer == ""
    requires Aurora.Describe(cfg.cluster, rep.describe).Described?
    ensures var found := Aurora.Describe(cfg.cluster, rep.describe).writer;
            Execute(cfg, st, rep) ==
            Behind(DescribeCall(rep.describe), Execute(cfg, Status(st.phase, found, st.readers), rep))
  {
    var known := Status(st.phase, Aurora.Describe(cfg.cluster, rep.describe).writer, st.readers);
    WriterCalls(cfg, known, rep);
    var calls := Execute(cfg, known, rep).calls;
    assert calls == [calls[0]];
  }

  /** While it is not found, the resize of the writer fails, and the two waits go on without a name. */
  lemma RediscoveryFails(cfg: Config, st: Status, rep: Replies)
    requires Prepared(cfg, rep) && st.phase in {WaitWriterFailover, ScalingWriter, WaitOldWriter} && st.writer == ""
    requires Aurora.Describe(cfg.cluster, rep.describe).DescribeFailed?
    ensures var r := Execute(cfg, st, rep);
            var lookup := DescribeCall(rep.describe);
            && (st.phase == ScalingWriter ==> r == Result([lookup], st, false, true, NoRequeue))
            && (st.phase == WaitWriterFailover ==> r.calls == [lookup, DescribeCall(rep.again)])
            && (st.phase == WaitOldWriter ==> r.calls == [lookup, CheckCall([""], cfg.parameters.value, rep.check)])
            && (st.phase != ScalingWriter ==> FollowsLast(cfg, st, r))
  {
  }

  /** The statuses that are left: no readers to resize, an execution that is over, and an unknown phase. */
  lemma OtherStatuses(cfg: Config, st: Status, rep: Replies)
    requires Prepared(cfg, rep) && !Regular(st)
    ensures st.phase == ScalingReplicas ==>
              Execute(cfg, st, rep) ==
              Result([], Status(WaitReplicas, st.writer, []), false, false, After(30_000_000_000))
    ensures st.phase == Completed ==> Execute(cfg, st, rep) == Result([], st, true, false, NoRequeue)
    ensures st.phase == TimedOut || st.phase.OtherPhase? ==>
              Execute(cfg, st, rep) == Result([], st, true, true, NoRequeue)
  {
  }

  /** In every run, whatever the stored status: a pass that is prepared makes the calls of its phase, and its last
      call decides how it goes on. One that is not makes no call at all, keeps the status, and is repeated only
      when it was the target that could not be fetched. */
  lemma LastCallDecides(cfg: Config, steps: seq<Step>, rep: Replies)
    requires Run(cfg, steps).obj.Live?
    ensures var st := Run(cfg, steps).obj.status;
            var r := Execute(cfg, st, rep);
            if Prepared(cfg, rep) then CallsFor(cfg, st, rep, r.calls) && r.calls != [] && FollowsLast(cfg, st, r)
            else r == Result([], st, rep.setup != TargetUnavailable, true, NoRequeue)
  {
    RunGood(cfg, steps);
    if Prepared(cfg, rep) {
      PhaseCalls(cfg, Run(cfg, steps).obj.status, rep);
      PhaseFollows(cfg, Run(cfg, steps).obj.status, rep);
    }
  }

  // ---------------------------------------------------------------- the events of a step

  /** The execution is older than the operator allows or, where that sets no limit, than thirty minutes. */
  ghost predicate Late(cfg: Config, at: int) {
    && cfg.created.Some?
    && at - cfg.created.value > if cfg.timeout <= 0 then 1_800_000_000_000 else cfg.timeout
  }

  function Notice(cfg: Config, outcome: Outcome, phase: Phase): Event {
    Notified(NotificationBody(cfg.actionName, cfg.actionType, cfg.target, outcome, phase))
  }

  /** A pass that is late notifies and deletes; any other follows the handler, which finishes or goes on. */
  lemma PassIs(cfg: Config, st: Status, at: int, rep: Replies, answer: StoreReply)
    ensures var es := PassEvents(cfg, st, at, rep, answer);
            var r := Execute(cfg, st, rep);
            if Late(cfg, at) then es == [Notice(cfg, Timeout, TimedOut), DeleteCall(answer)]
            else if !cfg.supported then es == []
            else if r.done then
              es == r.calls + [Notice(cfg, if r.failed then Error else Success, r.status.phase), DeleteCall(answer)]
            else es == r.calls + [StatusWrite(r.status, answer)]
  {
  }

  /** The events of a pass, or as many as the process lived to see and the crash. */
  ghost predicate Lived(s: Step, all: seq<Event>, es: seq<Event>)
    requires s.Pass? || s.Crash?
  {
    if s.Pass? then s.fetched && es == all else s.kept < |all| && es == all[..s.kept] + [Crashed]
  }

  lemma StepAdds(cfg: Config, w: World, s: Step)
    ensures var es := Added(cfg, w, s);
            es != [] ==>
              && w.obj.Live? && (s.Pass? || s.Crash?)
              && Lived(s, PassEvents(cfg, w.obj.status, s.at, s.rep, s.answer), es)
  {
  }

  /** The handler calls the cluster and does nothing else. */
  lemma OnlyClusterCalls(cfg: Config, st: Status, rep: Replies)
    requires Shape(st)
    ensures forall e :: e in Execute(cfg, st, rep).calls ==> ClusterCall(e) && Prepared(cfg, rep)
  {
    var calls := Execute(cfg, st, rep).calls;
    if Prepared(cfg, rep) {
      PhaseCalls(cfg, st, rep);
      forall e | e in calls ensures ClusterCall(e) {
        var k :| 0 <= k < |calls| && calls[k] == e;
      }
    }
  }

  // ---------------------------------------------------------------- refused modifies

  /** A refused modify is the last call, and the status stays. */
  lemma RefusedIsLast(cfg: Config, st: Status, rep: Replies, r: Result, k: nat)
    requires cfg.parameters.Some? && CallsFor(cfg, st, rep, r.calls) && r.calls != [] && FollowsLast(cfg, st, r)
    requires k < |r.calls| && r.calls[k].ModifyCall? && !r.calls[k].ok
    ensures k == |r.calls| - 1 && !r.done && r.status == st
  {
    assert st.phase == ScalingReplicas || |r.calls| == 1;
    var last := r.calls[|r.calls| - 1];
    assert Refusal(cfg, last) && !Granted(cfg, st, last);
  }

  lemma CallOfPass(cfg: Config, st: Status, s: Step, es: seq<Event>, k: nat)
    requires Shape(st) && (s.Pass? || s.Crash?) && Lived(s, PassEvents(cfg, st, s.at, s.rep, s.answer), es)
    requires k < |es| && ClusterCall(es[k])
    ensures !Late(cfg, s.at) && cfg.supported && Prepared(cfg, s.rep)
    ensures var r := Execute(cfg, st, s.rep); k < |r.calls| && r.calls[k] == es[k]
  {
    PassIs(cfg, st, s.at, s.rep, s.answer);
    var all := PassEvents(cfg, st, s.at, s.rep, s.answer);
    assert all[k] == es[k];
    if !Late(cfg, s.at) && cfg.supported && k < |Execute(cfg, st, s.rep).calls| {
      assert Execute(cfg, st, s.rep).calls[k] in Execute(cfg, st, s.rep).calls;
      OnlyClusterCalls(cfg, st, s.rep);
    }
  }

  /** Whatever the run: once a modify is refused, the step makes no further call of the cluster and does not
      advance; it writes the status back or crashes, and that is all. */
  lemma RefusedModifyStops(cfg: Config, steps: seq<Step>, s: Step, k: nat)
    requires var es := Added(cfg, Run(cfg, steps), s); k < |es| && es[k].ModifyCall? && !es[k].ok
    ensures var w := Run(cfg, steps);
            var es := Added(cfg, w, s);
            && |es| == k + 2
            && (es[k + 1].Crashed? || es[k + 1] == StatusWrite(w.obj.status, s.answer))
            && (Apply(cfg, w, s).obj.Live? ==> Apply(cfg, w, s).obj == w.obj)
  {
    var w := Run(cfg, steps);
    var st := w.obj.status;
    RunGood(cfg, steps);
    StepAdds(cfg, w, s);
    CallOfPass(cfg, st, s, Added(cfg, w, s), k);
    LastCallDecides(cfg, steps, s.rep);
    RefusedIsLast(cfg, st, s.rep, Execute(cfg, st, s.rep), k);
    PassIs(cfg, st, s.at, s.rep, s.answer);
    PassObjectIs(cfg, st, s.at, s.rep, s.answer);
    if s.Pass? {
      AddedByPass(cfg, w, s);
    }
  }

  /** The modifies that a step makes while the readers are due: down the list of readers, at the execution's class,
      each but the last accepted; a pass that makes any leaves readers out only behind a refusal. */
  ghost predicate DownTheReaders(cfg: Config, st: Status, s: Step, es: seq<Event>, n: nat) {
    && n <= |es| && n <= |st.readers|
    && (forall k :: 0 <= k < n ==>
          es[k].ModifyCall? && es[k].id == st.readers[k] && cfg.parameters == Some(es[k].instanceClass))
    && (forall k :: n <= k < |es| ==> !ClusterCall(es[k]))
    && (forall k :: 0 <= k < n - 1 ==> es[k].ok)
    && (s.Pass? && 0 < n < |st.readers| ==> !es[n - 1].ok)
  }

  /** The calls of a pass over the readers, closed by one more event or cut short by a crash. */
  lemma CutDownTheReaders(cfg: Config, st: Status, s: Step, rep: Replies, calls: seq<Event>, last: Event,
                          es: seq<Event>)
    requires st.phase == ScalingReplicas && cfg.parameters.Some? && CallsFor(cfg, st, rep, calls)
    requires (s.Pass? || s.Crash?) && Lived(s, calls + [last], es) && !ClusterCall(last)
    ensures DownTheReaders(cfg, st, s, es, |es| - 1)
  {
    forall k | 0 <= k < |es| - 1 ensures es[k] == calls[k] {}
  }

  /** The events of a prepared pass over the readers. */
  lemma ReadersPass(cfg: Config, st: Status, at: int, rep: Replies, answer: StoreReply)
    returns (calls: seq<Event>, last: Event)
    requires Shape(st) && st.phase == ScalingReplicas && !Late(cfg, at) && cfg.supported && Prepared(cfg, rep)
    ensures CallsFor(cfg, st, rep, calls) && !ClusterCall(last)
    ensures PassEvents(cfg, st, at, rep, answer) == calls + [last]
  {
    PassIs(cfg, st, at, rep, answer);
    PhaseCalls(cfg, st, rep);
    PhaseFollows(cfg, st, rep);
    calls := Execute(cfg, st, rep).calls;
    last := StatusWrite(Execute(cfg, st, rep).status, answer);
  }

  /** A pass that is not prepared does not call the cluster. */
  lemma UnpreparedSilent(cfg: Config, st: Status, at: int, rep: Replies, answer: StoreReply)
    requires Late(cfg, at) || !cfg.supported || !Prepared(cfg, rep)
    ensures forall e :: e in PassEvents(cfg, st, at, rep, answer) ==> !ClusterCall(e)
  {
    PassIs(cfg, st, at, rep, answer);
  }

  lemma StepDownTheReaders(cfg: Config, st: Status, s: Step, es: seq<Event>) returns (n: nat)
    requires Shape(st) && st.phase == ScalingReplicas && (s.Pass? || s.Crash?)
    requires Lived(s, PassEvents(cfg, st, s.at, s.rep, s.answer), es)
    ensures DownTheReaders(cfg, st, s, es, n)
  {
    if Late(cfg, s.at) || !cfg.supported || !Prepared(cfg, s.rep) {
      UnpreparedSilent(cfg, st, s.at, s.rep, s.answer);
      n := 0;
    } else {
      var calls, last := ReadersPass(cfg, st, s.at, s.rep, s.answer);
      CutDownTheReaders(cfg, st, s, s.rep, calls, last, es);
      n := |es| - 1;
    }
  }

  lemma ReadersCalledInOrder(cfg: Config, steps: seq<Step>, s: Step)
    requires Run(cfg, steps).obj.Live? && Run(cfg, steps).obj.status.phase == ScalingReplicas
    ensures exists n :: DownTheReaders(cfg, Run(cfg, steps).obj.status, s, Added(cfg, Run(cfg, steps), s), n)
  {
    var w := Run(cfg, steps);
    RunGood(cfg, steps);
    StepAdds(cfg, w, s);
    if Added(cfg, w, s) == [] {
      assert DownTheReaders(cfg, w.obj.status, s, [], 0);
    } else {
      var n := StepDownTheReaders(cfg, w.obj.status, s, Added(cfg, w, s));
    }
  }

  // ---------------------------------------------------------------- how a pass ends

  /** Only a late pass announces a time-out. */
  lemma TimeoutOfPass(cfg: Config, st: Status, s: Step, es: seq<Event>)
    requires Shape(st) && s.Pass? && es == PassEvents(cfg, st, s.at, s.rep, s.answer)
    ensures (exists e :: e in es && e.Notified? && e.body.status == Timeout) <==> Late(cfg, s.at)
    ensures Late(cfg, s.at) ==> |es| == 2 && es[0].Notified? && es[1] == DeleteCall(s.answer)
  {
    if Late(cfg, s.at) {
      PassIs(cfg, st, s.at, s.rep, s.answer);
      assert es[0] in es;
    } else {
      forall e | e in es && e.Notified? ensures e.body.status != Timeout {
        NoticeOf(cfg, st, s, e);
      }
    }
  }

  /** For every run and every pass over a live execution: it is timed out exactly when it is older than the
      operator's limit, or than thirty minutes when the operator sets none, and then nothing else happens. */
  lemma TimesOutIff(cfg: Config, steps: seq<Step>, s: Step)
    requires Run(cfg, steps).obj.Live? && s.Pass? && s.fetched
    ensures var es := Added(cfg, Run(cfg, steps), s);
            var late := cfg.created.Some? &&
                        s.at - cfg.created.value > if cfg.timeout <= 0 then 1_800_000_000_000 else cfg.timeout;
            && ((exists e :: e in es && e.Notified? && e.body.status == Timeout) <==> late)
            && (late ==> |es| == 2 && es[0].Notified? && es[1] == DeleteCall(s.answer))
  {
    var w := Run(cfg, steps);
    RunGood(cfg, steps);
    AddedByPass(cfg, w, s);
    TimeoutOfPass(cfg, w.obj.status, s, Added(cfg, w, s));
  }

  /** What the store makes of a call that asks for `asked`. */
  function Answered(before: Object, asked: Object, answer: StoreReply): Object {
    match answer
    case Stored => asked
    case NotFound => Gone
    case Refused => before
  }

  /** The end of a pass: a notification and a delete call, or a status write. */
  ghost predicate Closes(es: seq<Event>, answer: StoreReply, ends: bool, st: Status) {
    && es != []
    && (forall k :: 0 <= k < |es| - (if ends then 2 else 1) ==> ClusterCall(es[k]))
    && if ends then |es| >= 2 && es[|es| - 2].Notified? && es[|es| - 1] == DeleteCall(answer)
       else es[|es| - 1] == StatusWrite(st, answer)
  }

  lemma PassObjectIs(cfg: Config, st: Status, at: int, rep: Replies, answer: StoreReply)
    requires cfg.supported || Late(cfg, at)
    ensures var r := Execute(cfg, st, rep);
            PassObject(cfg, st, at, rep, answer) ==
            Answered(Live(st), if Late(cfg, at) || r.done then Terminating else Live(r.status), answer)
  {
  }

  /** A pass seen through the handler's result alone. */
  lemma ClosedBy(r: Result, es: seq<Event>, late: bool, notice: Event, answer: StoreReply)
    requires forall e :: e in r.calls ==> ClusterCall(e)
    requires notice.Notified?
    requires es == if late then [notice, DeleteCall(answer)]
                   else r.calls + if r.done then [notice, DeleteCall(answer)] else [StatusWrite(r.status, answer)]
    ensures Closes(es, answer, late || r.done, r.status)
    ensures (exists e :: e in es && ClusterCall(e)) <==> r.calls != [] && !late
  {
    assert forall k :: 0 <= k < |r.calls| ==> r.calls[k] in r.calls;
    if r.calls != [] && !late {
      assert es[0] == r.calls[0] && es[0] in es;
    }
  }

  /** For every run and every fetched pass over a live execution, of a supported kind unless it is late: it calls
      the cluster exactly when it is prepared and in time; of the store it asks one thing, at the end, which is the
      deletion, with the notification right before it, when the time is up or the handler is done, and otherwise
      the status; the object is what the store's answer makes of it. */
  lemma PassCloses(cfg: Config, steps: seq<Step>, s: Step)
    requires Run(cfg, steps).obj.Live? && s.Pass? && s.fetched && (cfg.supported || Late(cfg, s.at))
    ensures var w := Run(cfg, steps);
            var r := Execute(cfg, w.obj.status, s.rep);
            var ends := Late(cfg, s.at) || r.done;
            var es := Added(cfg, w, s);
            && ((exists e :: e in es && ClusterCall(e)) <==> Prepared(cfg, s.rep) && !Late(cfg, s.at))
            && Closes(es, s.answer, ends, r.status)
            && Apply(cfg, w, s).obj == Answered(w.obj, if ends then Terminating else Live(r.status), s.answer)
  {
    var w := Run(cfg, steps);
    var st := w.obj.status;
    var r := Execute(cfg, st, s.rep);
    RunGood(cfg, steps);
    PassIs(cfg, st, s.at, s.rep, s.answer);
    PassObjectIs(cfg, st, s.at, s.rep, s.answer);
    OnlyClusterCalls(cfg, st, s.rep);
    LastCallDecides(cfg, steps, s.rep);
    var notice := if Late(cfg, s.at) then Notice(cfg, Timeout, TimedOut)
                  else Notice(cfg, if r.failed then Error else Success, r.status.phase);
    AddedByPass(cfg, w, s);
    ClosedBy(r, Added(cfg, w, s), Late(cfg, s.at), notice, s.answer);
  }

  lemma AddedByPass(cfg: Config, w: World, s: Step)
    requires w.obj.Live? && s.Pass? && s.fetched
    ensures Added(cfg, w, s) == PassEvents(cfg, w.obj.status, s.at, s.rep, s.answer)
    ensures Apply(cfg, w, s).obj == PassObject(cfg, w.obj.status, s.at, s.rep, s.answer)
  {
  }

  /** Steps that do nothing: a pass that cannot read the object, and one over an execution of an unknown kind whose
      time is not up. */
  lemma PassesIdle(cfg: Config, steps: seq<Step>, s: Step)
    requires s.Pass? && (!s.fetched || !Run(cfg, steps).obj.Live? || (!cfg.supported && !Late(cfg, s.at)))
    ensures Apply(cfg, Run(cfg, steps), s) == Run(cfg, steps)
  {
    var w := Run(cfg, steps);
    assert w.log + [] == w.log;
  }

  lemma NoticeOf(cfg: Config, st: Status, s: Step, e: Event)
    requires Shape(st) && (s.Pass? || s.Crash?)
    requires e in PassEvents(cfg, st, s.at, s.rep, s.answer) && e.Notified?
    ensures var r := Execute(cfg, st, s.rep);
            if Late(cfg, s.at) then e == Notice(cfg, Timeout, TimedOut)
            else r.done && e == Notice(cfg, if r.failed then Error else Success, r.status.phase)
  {
    PassIs(cfg, st, s.at, s.rep, s.answer);
    OnlyClusterCalls(cfg, st, s.rep);
  }

  /** What every notification of every run tells: its names, and why the execution ended. It timed out when it was
      late, it failed when it was in time but not prepared, and otherwise it has succeeded. */
  lemma NoticeTells(cfg: Config, steps: seq<Step>, s: Step, e: Event)
    requires e in Added(cfg, Run(cfg, steps), s) && e.Notified?
    ensures var st := Run(cfg, steps).obj.status;
            && e.body.schedule == cfg.actionName && e.body.action == cfg.actionType && e.body.resource == cfg.target
            && (e.body.status == Timeout <==> Late(cfg, s.at))
            && (e.body.status == Error <==> !Late(cfg, s.at) && !Prepared(cfg, s.rep))
            && e.body.phase == match e.body.status
                               case Timeout => TimedOut
                               case Error => st.phase
                               case Success => Completed
  {
    var w := Run(cfg, steps);
    RunGood(cfg, steps);
    NoticeOf(cfg, w.obj.status, s, e);
    LastCallDecides(cfg, steps, s.rep);
  }
}
