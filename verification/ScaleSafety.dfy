/** What every run of a scaling execution guarantees. */
module ScaleSafety {
  import opened ScaleProtocol
  import opened ScaleRuns
  import Aurora

  /** The events a step adds to the history. */
  function Added(cfg: Config, w: World, s: Step): (es: seq<Event>)
    ensures Apply(cfg, w, s).log == w.log + es
    ensures es != [] ==> w.obj.Live? && (s.Pass? || s.Crash?)
    ensures forall e :: e in es && !e.Crashed? ==> e in PassEvents(cfg, w.obj.status, s.at, s.rep, s.answer)
  {
    Apply(cfg, w, s).log[|w.log|..]
  }

  // ---------------------------------------------------------------- the old writer is touched last

  /** No readers are on record, or the history already holds, in this order, a successful modify of every
      reader, a report that all of them are available at the requested class, a successful failover and a
      report of another writer. */
  ghost predicate WriterFree(cfg: Config, w: World)
    requires w.obj.Live?
  {
    w.obj.status.readers == [] || WriterMoved(cfg, w.obj.status.writer, w.obj.status.readers, w.log)
  }

  /** Before the failover is stored as due there is none in the history. */
  lemma NotMovedEarly(cfg: Config, w: World)
    requires Good(cfg, w) && w.obj.Live? && 2 <= Rank(w.obj.status.phase) < 4
    ensures !WriterFree(cfg, w)
  {
    assert FailoverCall(true) in w.log ==> Expected(cfg, w.obj.status, FailoverCall(true));
    forall a | 0 <= a < |w.log| ensures !FailedOver(cfg, w.obj.status.readers, w.log[..a]) {
      forall b | 0 <= b < a ensures w.log[..a][b] != FailoverCall(true) {
        assert w.log[b] in w.log;
      }
    }
  }

  /** Whatever the replies, refused writes and crashes of a run: a step that modifies the recorded writer
      finds it free exactly when the step is not the one that resizes the readers. That one modifies the
      writer only if the record names it as a reader too, so a writer that is no reader is always free. */
  lemma WriterModifiedLast(cfg: Config, steps: seq<Step>, s: Step, e: Event)
    requires e in Added(cfg, Run(cfg, steps), s) && e.ModifyCall? && e.id == Run(cfg, steps).obj.status.writer
    ensures var w := Run(cfg, steps);
            && (WriterFree(cfg, w) <==> w.obj.status.phase != ScalingReplicas)
            && (WriterFree(cfg, w) || w.obj.status.writer in w.obj.status.readers)
  {
    var w := Run(cfg, steps);
    RunGood(cfg, steps);
    PassExpected(cfg, w.obj.status, s.at, s.rep, s.answer);
    assert Expected(cfg, w.obj.status, e);
    if w.obj.status.phase == ScalingReplicas {
      NotMovedEarly(cfg, w);
    } else {
      ModifyingPhase(cfg, w.obj.status, s, e);
    }
  }

  lemma ModifyingPhase(cfg: Config, st: Status, s: Step, e: Event)
    requires Shape(st) && (s.Pass? || s.Crash?)
    requires e in PassEvents(cfg, st, s.at, s.rep, s.answer) && e.ModifyCall?
    ensures st.phase == ScalingReplicas || st.phase == ScalingWriter
  {
  }

  /** The calls over the readers, all of them accepted, name every reader and no one else. */
  lemma ReadersNamed(readers: seq<string>, instanceClass: string, replies: seq<bool>, x: string)
    requires AllModified(readers, replies)
    ensures ModifyCall(x, instanceClass, true) in ModifyCalls(readers, instanceClass, replies) <==> x in readers
  {
    var calls := ModifyCalls(readers, instanceClass, replies);
    CompleteCalls(readers, instanceClass, replies, 0);
    if x in readers {
      var i :| 0 <= i < |readers| && readers[i] == x;
      assert calls[i] in calls;
    }
  }

  lemma AllReadersPass(cfg: Config, w: World, s: Step)
    requires cfg.supported && cfg.Class() != "" && s.Pass? && s.fetched && !cfg.Expired(s.at) && s.rep.setup == Ready
    requires w.obj.Live? && w.obj.status.phase == ScalingReplicas && AllModified(w.obj.status.readers, s.rep.modified)
    ensures var st := w.obj.status;
            Added(cfg, w, s) == ModifyCalls(st.readers, cfg.Class(), s.rep.modified) +
                                [StatusWrite(st.(phase := WaitReplicas), s.answer)]
  {
  }

  /** A pass that resizes all readers, and so comes before any failover, resizes the recorded writer with
      them if and only if the record names the writer as a reader. */
  lemma WriterModifiedEarlyIff(cfg: Config, steps: seq<Step>, s: Step)
    requires cfg.supported && cfg.Class() != "" && s.Pass? && s.fetched && !cfg.Expired(s.at) && s.rep.setup == Ready
    requires Run(cfg, steps).obj.Live? && Run(cfg, steps).obj.status.phase == ScalingReplicas
    requires AllModified(Run(cfg, steps).obj.status.readers, s.rep.modified)
    ensures var w := Run(cfg, steps);
            && !WriterFree(cfg, w)
            && (ModifyCall(w.obj.status.writer, cfg.Class(), true) in Added(cfg, w, s) <==>
                w.obj.status.writer in w.obj.status.readers)
  {
    var w := Run(cfg, steps);
    var st := w.obj.status;
    RunGood(cfg, steps);
    NotMovedEarly(cfg, w);
    AllReadersPass(cfg, w, s);
    ReadersNamed(st.readers, cfg.Class(), s.rep.modified, st.writer);
  }

  /** Every description in the history lists distinct instances, at most one of them as writer. */
  ghost predicate DistinctListings(cfg: Config, log: seq<Event>) {
    forall e :: e in log && e.DescribeCall? && Aurora.Describe(cfg.cluster, e.reply).Described? ==>
      && Aurora.Unambiguous(cfg.cluster, e.reply)
      && forall x :: multiset(Aurora.Listed(cfg.cluster, e.reply))[x] <= 1
  }

  /** With distinct listings no writer is recorded as a reader too, so it is never modified before its time. */
  lemma WriterFreeWhenDistinct(cfg: Config, steps: seq<Step>, s: Step, e: Event)
    requires DistinctListings(cfg, Run(cfg, steps).log)
    requires e in Added(cfg, Run(cfg, steps), s) && e.ModifyCall? && e.id == Run(cfg, steps).obj.status.writer
    ensures WriterFree(cfg, Run(cfg, steps))
  {
    var w := Run(cfg, steps);
    RunGood(cfg, steps);
    PassExpected(cfg, w.obj.status, s.at, s.rep, s.answer);
    assert Expected(cfg, w.obj.status, e) && Recorded(cfg, w.obj.status, w.log);
    var i :| 0 <= i < |w.log| && w.log[i].DescribeCall? &&
             Aurora.Describe(cfg.cluster, w.log[i].reply) ==
             Aurora.Described(w.obj.status.writer, w.obj.status.readers);
    assert w.log[i] in w.log;
    Aurora.DescribeSeparates(cfg.cluster, w.log[i].reply);
    WriterModifiedLast(cfg, steps, s, e);
  }

  /** A cluster that lists its writer twice has it resized with the readers, before any failover: the
      first pass records it in both roles and the second modifies it. */
  lemma WriterModifiedEarly(cfg: Config, first: Step, second: Step)
    requires cfg.cluster == "c" && cfg.supported && cfg.Class() != ""
    requires forall s :: s in {first, second} ==>
               s.Pass? && s.fetched && s.answer == Stored && !cfg.Expired(s.at) && s.rep.setup == Ready
    requires first.rep.describe.clusters == Aurora.Clusters([Aurora.Doubled])
    requires Answer(second.rep.modified, 0)
    ensures var w := Run(cfg, [first]);
            && w.obj == Live(Status(ScalingReplicas, "a", ["a"]))
            && ModifyCall(w.obj.status.writer, cfg.Class(), true) in Added(cfg, w, second)
            && !WriterFree(cfg, w)
  {
    assert [first] == [] + [first];
    RunSnoc(cfg, [], first);
    Aurora.WriterListedAsReader(first.rep.describe.instances);
    WriterModifiedEarlyIff(cfg, [first], second);
  }

  /** Every description in the history lists the same distinct instances, at most one of them as writer. */
  ghost predicate FixedMembership(cfg: Config, log: seq<Event>, members: set<string>) {
    forall e :: e in log && e.DescribeCall? && Aurora.Describe(cfg.cluster, e.reply).Described? ==>
      && Aurora.Unambiguous(cfg.cluster, e.reply)
      && (forall x :: multiset(Aurora.Listed(cfg.cluster, e.reply))[x] <= 1)
      && (set x | x in Aurora.Listed(cfg.cluster, e.reply)) == members
  }

  lemma SplitsMembership(cfg: Config, log: seq<Event>, members: set<string>, e: Event)
    requires FixedMembership(cfg, log, members) && e in log
    requires e.DescribeCall? && Aurora.Describe(cfg.cluster, e.reply).Described?
    ensures var d := Aurora.Describe(cfg.cluster, e.reply);
            d.writer !in d.readers && forall x :: x in members <==> x == d.writer || x in d.readers
  {
    Aurora.DescribeSeparates(cfg.cluster, e.reply);
  }

  lemma {:induction false} LatestWriterSeen(cfg: Config, log: seq<Event>)
    requires LatestWriter(cfg, log).Some?
    ensures exists e :: e in log && e.DescribeCall? && Aurora.Describe(cfg.cluster, e.reply).Described? &&
                        Aurora.Describe(cfg.cluster, e.reply).writer == LatestWriter(cfg, log).value
  {
    var e := log[|log| - 1];
    if !(e.DescribeCall? && Aurora.Describe(cfg.cluster, e.reply).Described?) {
      LatestWriterSeen(cfg, log[..|log| - 1]);
    }
  }

  /** When the cluster's membership does not change, the recorded writer of a cluster with readers is
      modified only while the most recently reported writer is one of the recorded readers, and that
      reader has already been reported available at the requested class. */
  lemma SuccessorServes(cfg: Config, steps: seq<Step>, s: Step, e: Event, members: set<string>)
    requires FixedMembership(cfg, Run(cfg, steps).log, members)
    requires e in Added(cfg, Run(cfg, steps), s) && e.ModifyCall?
    requires var st := Run(cfg, steps).obj.status; e.id == st.writer && st.readers != []
    ensures var w := Run(cfg, steps);
            && LatestWriter(cfg, w.log).Some?
            && LatestWriter(cfg, w.log).value in w.obj.status.readers
            && ReportedReady(cfg, w.log, LatestWriter(cfg, w.log).value)
  {
    var w := Run(cfg, steps);
    var st := w.obj.status;
    RunGood(cfg, steps);
    PassExpected(cfg, st, s.at, s.rep, s.answer);
    assert Expected(cfg, st, e);
    assert Recorded(cfg, st, w.log);
    var i :| 0 <= i < |w.log| && w.log[i].DescribeCall? &&
             Aurora.Describe(cfg.cluster, w.log[i].reply) == Aurora.Described(st.writer, st.readers);
    SplitsMembership(cfg, w.log, members, w.log[i]);
    LatestWriterSeen(cfg, w.log);
    var seen :| seen in w.log && seen.DescribeCall? && Aurora.Describe(cfg.cluster, seen.reply).Described? &&
                Aurora.Describe(cfg.cluster, seen.reply).writer == LatestWriter(cfg, w.log).value;
    SplitsMembership(cfg, w.log, members, seen);
    var x := LatestWriter(cfg, w.log).value;
    assert x in members && x != st.writer;
    ReadyMeansEach(cfg, st.readers, w.log, x);
  }

  lemma ReadyMeansEach(cfg: Config, readers: seq<string>, log: seq<Event>, x: string)
    requires ReadersReady(cfg, readers, log) && x in readers
    ensures ReportedReady(cfg, log, x)
  {
    var a :| 0 <= a < |log| && ReportsAvailable(cfg, log[a], readers) && ReadersModified(cfg, readers, log[..a]);
    var i :| 0 <= i < |readers| && readers[i] == x;
    assert log[a] in log && log[a].ids[i] == x;
  }

  /** The instance was reported available with the requested class. */
  ghost predicate ReportedReady(cfg: Config, log: seq<Event>, x: string) {
    exists c, i :: c in log && c.CheckCall? && 0 <= i < |c.ids| && c.ids[i] == x &&
                   Aurora.Available(Aurora.ReplyAt(c.replies, i), cfg.Class())
  }

  lemma ReportedReadyGrows(cfg: Config, log: seq<Event>, more: seq<Event>, x: string)
    requires ReportedReady(cfg, log, x)
    ensures ReportedReady(cfg, log + more, x)
  {
    var c, i :| c in log && c.CheckCall? && 0 <= i < |c.ids| && c.ids[i] == x &&
                Aurora.Available(Aurora.ReplyAt(c.replies, i), cfg.Class());
    assert c in log + more;
  }

  lemma WriterReported(cfg: Config, w: World, s: Step, e: Event)
    requires w.obj.Live? && Shape(w.obj.status)
    requires e in Added(cfg, w, s) && e.Notified? && e.body.status == Success
    ensures ReportedReady(cfg, w.log + Added(cfg, w, s), w.obj.status.writer)
  {
    var es := Added(cfg, w, s);
    SuccessPhase(cfg, w.obj.status, s, e);
    var c := CheckCall([w.obj.status.writer], cfg.Class(), s.rep.check);
    assert PassEvents(cfg, w.obj.status, s.at, s.rep, s.answer)[0] == c;
    var k :| 0 <= k < |es| && es[k] == e;
    assert es[0] == c && es[0] in w.log + es;
    assert c.ids[0] == w.obj.status.writer;
  }

  /** A step that announces success: every recorded reader and the recorded writer was individually
      reported available with the requested class during this run. */
  lemma SuccessMeansScaled(cfg: Config, steps: seq<Step>, s: Step, e: Event, x: string)
    requires e in Added(cfg, Run(cfg, steps), s) && e.Notified? && e.body.status == Success
    requires var st := Run(cfg, steps).obj.status; x == st.writer || x in st.readers
    ensures ReportedReady(cfg, Run(cfg, steps + [s]).log, x)
  {
    var w := Run(cfg, steps);
    RunSnoc(cfg, steps, s);
    RunGood(cfg, steps);
    if x in w.obj.status.readers {
      SuccessPhase(cfg, w.obj.status, s, e);
      ReadyMeansEach(cfg, w.obj.status.readers, w.log, x);
      ReportedReadyGrows(cfg, w.log, Added(cfg, w, s), x);
    } else {
      WriterReported(cfg, w, s, e);
    }
  }

  lemma SuccessPhase(cfg: Config, st: Status, s: Step, e: Event)
    requires Shape(st) && (s.Pass? || s.Crash?)
    requires e in PassEvents(cfg, st, s.at, s.rep, s.answer) && e.Notified? && e.body.status == Success
    ensures st.phase == WaitOldWriter
    ensures Execute(cfg, st, s.rep).calls == [CheckCall([st.writer], cfg.Class(), s.rep.check)]
    ensures |PassEvents(cfg, st, s.at, s.rep, s.answer)| == 3
    ensures PassEvents(cfg, st, s.at, s.rep, s.answer)[1] == e
    ensures Aurora.Available(Aurora.ReplyAt(s.rep.check, 0), cfg.Class())
  {
    var r := Execute(cfg, st, s.rep);
    if e in r.calls {
      CallsArePlain(cfg, st, s.rep, e);
    }
    assert e in Ending(cfg, r, s.answer);
    DoneWell(cfg, st, s.rep);
  }

  /** The handler finishes without an error only on a positive check of the recorded writer. */
  lemma DoneWell(cfg: Config, st: Status, rep: Replies)
    requires Shape(st) && Execute(cfg, st, rep).done && !Execute(cfg, st, rep).failed
    ensures st.phase == WaitOldWriter
    ensures Execute(cfg, st, rep).calls == [CheckCall([st.writer], cfg.Class(), rep.check)]
    ensures Aurora.Available(Aurora.ReplyAt(rep.check, 0), cfg.Class())
  {
    assert [] + [CheckCall([st.writer], cfg.Class(), rep.check)] == [CheckCall([st.writer], cfg.Class(), rep.check)];
  }
}
