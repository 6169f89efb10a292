/** How a scaling run ends: its notifications and its delete calls. */
module ScaleEnding {
  import opened Base
  import opened ScaleProtocol
  import opened ScaleRuns
  import opened ScaleProgress

  predicate IsNotice(e: Event) { e.Notified? }

  predicate IsDelete(e: Event) { e.DeleteCall? }

  predicate IsRefusedDelete(e: Event) { e.DeleteCall? && e.answer == Refused }

  predicate IsCrash(e: Event) { e.Crashed? }

  /** Each notification is followed by its delete call or by a crash, each delete call follows its
      notification, and nothing follows a delete call that was not refused. */
  ghost predicate WellEnded(log: seq<Event>) {
    forall k :: 0 <= k < |log| ==> EndedAt(log, k)
  }

  ghost predicate EndedAt(log: seq<Event>, k: nat)
    requires k < |log|
  {
    && (log[k].Notified? ==> k + 1 < |log| && (log[k + 1].DeleteCall? || log[k + 1].Crashed?))
    && (log[k].DeleteCall? ==> k > 0 && log[k - 1].Notified?)
    && (log[k].DeleteCall? && log[k].answer != Refused ==> k == |log| - 1)
  }

  ghost predicate Ends(w: World) {
    && WellEnded(w.log)
    && (w.obj.Live? ==> forall e :: e in w.log && e.DeleteCall? ==> e.answer == Refused)
    && Count(IsDelete, w.log) <= Count(IsNotice, w.log) <= Count(IsDelete, w.log) + Count(IsCrash, w.log)
    && Count(IsDelete, w.log) <= Count(IsRefusedDelete, w.log) + 1
    && (w.obj.Live? ==> Count(IsDelete, w.log) == Count(IsRefusedDelete, w.log))
  }

  /** The events of a step: ordinary ones, then possibly a notification with its delete call or a crash. */
  ghost predicate Plain(es: seq<Event>) {
    forall e :: e in es ==> !e.Notified? && !e.DeleteCall?
  }

  lemma CountPlain(log: seq<Event>, es: seq<Event>)
    requires Plain(es)
    ensures Count(IsNotice, log + es) == Count(IsNotice, log)
    ensures Count(IsDelete, log + es) == Count(IsDelete, log)
    ensures Count(IsRefusedDelete, log + es) == Count(IsRefusedDelete, log)
    ensures Count(IsCrash, log + es) >= Count(IsCrash, log)
  {
    CountConcat(IsNotice, log, es);
    CountConcat(IsDelete, log, es);
    CountConcat(IsRefusedDelete, log, es);
    CountConcat(IsCrash, log, es);
    CountZero(IsNotice, es);
    CountZero(IsDelete, es);
    CountZero(IsRefusedDelete, es);
  }

  lemma CountLast(log: seq<Event>, e: Event)
    ensures Count(IsNotice, log + [e]) == Count(IsNotice, log) + if IsNotice(e) then 1 else 0
    ensures Count(IsDelete, log + [e]) == Count(IsDelete, log) + if IsDelete(e) then 1 else 0
    ensures Count(IsRefusedDelete, log + [e]) == Count(IsRefusedDelete, log) + if IsRefusedDelete(e) then 1 else 0
    ensures Count(IsCrash, log + [e]) == Count(IsCrash, log) + if IsCrash(e) then 1 else 0
  {
    CountAppend(IsNotice, log, e);
    CountAppend(IsDelete, log, e);
    CountAppend(IsRefusedDelete, log, e);
    CountAppend(IsCrash, log, e);
  }

  lemma EndsPlain(w: World, es: seq<Event>, obj: Object)
    requires Ends(w) && w.obj.Live? && Plain(es)
    ensures Ends(World(obj, w.log + es))
  {
    CountPlain(w.log, es);
    forall e | e in w.log + es && e.DeleteCall? ensures e.answer == Refused {
      assert e in w.log;
    }
    forall k | 0 <= k < |w.log + es| ensures EndedAt(w.log + es, k) {
      if k < |w.log| {
        assert EndedAt(w.log, k);
        assert w.log[k] in w.log;
      } else {
        assert (w.log + es)[k] in es;
      }
    }
  }

  lemma EndsNoticed(w: World, notice: Event, last: Event, obj: Object)
    requires Ends(w) && w.obj.Live? && notice.Notified? && (last.Crashed? || last.DeleteCall?)
    requires obj.Live? ==> last.Crashed? || last.answer == Refused
    ensures Ends(World(obj, w.log + [notice] + [last]))
  {
    CountLast(w.log, notice);
    CountLast(w.log + [notice], last);
    var log := w.log + [notice] + [last];
    forall k | 0 <= k < |log| ensures EndedAt(log, k) {
      if k < |w.log| {
        assert EndedAt(w.log, k);
        assert w.log[k] in w.log;
      }
    }
    forall e | e in log && e.DeleteCall? ensures e in w.log || e == last {}
  }

  lemma PassShape(cfg: Config, st: Status, at: int, rep: Replies, answer: StoreReply)
    requires Shape(st)
    ensures var es := PassEvents(cfg, st, at, rep, answer);
            && PassLike(es)
            && (!Plain(es) ==> es[|es| - 1] == DeleteCall(answer) &&
                               PassObject(cfg, st, at, rep, answer) == Deleted(Live(st), answer))
  {
    var es := PassEvents(cfg, st, at, rep, answer);
    var calls := Execute(cfg, st, rep).calls;
    assert Plain(calls) by {
      forall e | e in calls ensures !e.Notified? && !e.DeleteCall? {
        CallsArePlain(cfg, st, rep, e);
      }
    }
    if !cfg.Expired(at) && cfg.supported {
      assert es[..|calls|] == calls;
    }
  }

  lemma EndsAppend(w: World, es: seq<Event>, obj: Object)
    requires Ends(w) && w.obj.Live? && |es| >= 2
    requires Plain(es[..|es| - 2]) && es[|es| - 2].Notified? && (es[|es| - 1].Crashed? || es[|es| - 1].DeleteCall?)
    requires obj.Live? ==> es[|es| - 1].Crashed? || es[|es| - 1].answer == Refused
    ensures Ends(World(obj, w.log + es))
  {
    var calls := es[..|es| - 2];
    EndsPlain(w, calls, w.obj);
    EndsNoticed(World(w.obj, w.log + calls), es[|es| - 2], es[|es| - 1], obj);
    assert w.log + es == w.log + calls + [es[|es| - 2]] + [es[|es| - 1]];
  }

  /** The events of a pass: ordinary ones, or ordinary ones before a notification and its delete call. */
  ghost predicate PassLike(es: seq<Event>) {
    Plain(es) ||
    (|es| >= 2 && Plain(es[..|es| - 2]) && es[|es| - 2].Notified? && es[|es| - 1].DeleteCall?)
  }

  lemma PassEnds(w: World, es: seq<Event>, obj: Object)
    requires Ends(w) && w.obj.Live? && PassLike(es)
    requires !Plain(es) && obj.Live? ==> es[|es| - 1].answer == Refused
    ensures Ends(World(obj, w.log + es))
  {
    if Plain(es) {
      EndsPlain(w, es, obj);
    } else {
      EndsAppend(w, es, obj);
    }
  }

  lemma CrashEnds(w: World, es: seq<Event>, kept: nat)
    requires Ends(w) && w.obj.Live? && PassLike(es) && kept < |es|
    ensures Ends(w.(log := w.log + (es[..kept] + [Crashed])))
  {
    var cut := es[..kept] + [Crashed];
    if Plain(es[..kept]) {
      EndsPlain(w, cut, w.obj);
    } else {
      assert forall i :: 0 <= i < |es| - 2 ==> es[i] in es[..|es| - 2];
      assert cut[..|cut| - 2] == es[..|es| - 2];
      EndsAppend(w, cut, w.obj);
    }
  }

  lemma ApplyEnds(cfg: Config, w: World, s: Step)
    requires Good(cfg, w) && Ends(w)
    ensures Ends(Apply(cfg, w, s))
  {
    if w.obj.Live? && (s.Pass? || s.Crash?) {
      var es := PassEvents(cfg, w.obj.status, s.at, s.rep, s.answer);
      PassShape(cfg, w.obj.status, s.at, s.rep, s.answer);
      if s.Pass? && s.fetched {
        PassEnds(w, es, PassObject(cfg, w.obj.status, s.at, s.rep, s.answer));
      } else if s.Crash? && s.kept < |es| {
        CrashEnds(w, es, s.kept);
      }
    }
  }

  /** In every run: each notification is answered by one delete call unless a crash intervenes, at most one
      delete call is not refused, and it is the last thing the run does. */
  lemma {:induction false} RunEnds(cfg: Config, steps: seq<Step>)
    ensures Ends(Run(cfg, steps))
  {
    if steps != [] {
      var init := steps[..|steps| - 1];
      RunEnds(cfg, init);
      RunGood(cfg, init);
      ApplyEnds(cfg, Run(cfg, init), steps[|steps| - 1]);
    }
  }

  lemma {:induction false} Frozen(cfg: Config, steps: seq<Step>, more: seq<Step>)
    requires !Run(cfg, steps).obj.Live?
    ensures !Run(cfg, steps + more).obj.Live? && Run(cfg, steps + more).log == Run(cfg, steps).log
  {
    if more == [] {
      assert steps + more == steps;
    } else {
      var init := more[..|more| - 1];
      Frozen(cfg, steps, init);
      assert steps + more == (steps + init) + [more[|more| - 1]];
      RunSnoc(cfg, steps + init, more[|more| - 1]);
    }
  }

  /** After a delete call that was not refused, no later step calls the cluster, notifies or writes. */
  lemma DeletedStaysSilent(cfg: Config, steps: seq<Step>, more: seq<Step>, e: Event)
    requires e in Run(cfg, steps).log && e.DeleteCall? && e.answer != Refused
    ensures Run(cfg, steps + more).log == Run(cfg, steps).log
  {
    RunEnds(cfg, steps);
    Frozen(cfg, steps, more);
  }

  /** The number of crashes that came between a notification and its delete call. */
  ghost function Cut(log: seq<Event>): nat {
    if |log| < 2 then 0
    else
      Cut(log[..|log| - 1]) + if log[|log| - 1].Crashed? && log[|log| - 2].Notified? then 1 else 0
  }

  /** Up to any point, each notification has had its delete call or its crash, but for one that has just been
      sent. */
  lemma {:induction false} NoticesPair(log: seq<Event>, n: nat)
    requires WellEnded(log) && n <= |log|
    ensures Count(IsNotice, log[..n]) ==
            Count(IsDelete, log[..n]) + Cut(log[..n]) + if n > 0 && log[n - 1].Notified? then 1 else 0
  {
    if n > 0 {
      NoticesPair(log, n - 1);
      assert log[..n][..n - 1] == log[..n - 1] && log[..n][n - 1] == log[n - 1];
      assert EndedAt(log, n - 1);
      if n > 1 {
        assert log[..n][n - 2] == log[n - 2];
        assert EndedAt(log, n - 2);
      }
    }
  }

  /** Every run notified once for each delete call and once for each crash before one. */
  lemma RunNotices(cfg: Config, steps: seq<Step>)
    ensures var log := Run(cfg, steps).log; Count(IsNotice, log) == Count(IsDelete, log) + Cut(log)
  {
    RunEnds(cfg, steps);
    var log := Run(cfg, steps).log;
    NoticesPair(log, |log|);
    assert log[..|log|] == log;
    assert log != [] ==> EndedAt(log, |log| - 1);
  }

  /** A run whose object was deleted notified once, once more for every refused delete call and once more for
      every crash between a notification and its delete call; so it notified exactly once if and only if
      there was neither. */
  lemma NoticesCounted(cfg: Config, steps: seq<Step>, e: Event)
    requires e in Run(cfg, steps).log && e.DeleteCall? && e.answer != Refused
    ensures var log := Run(cfg, steps).log;
            && Count(IsNotice, log) == Count(IsRefusedDelete, log) + 1 + Cut(log)
            && (Count(IsNotice, log) == 1 <==> DeleteCall(Refused) !in log && Cut(log) == 0)
  {
    RunEnds(cfg, steps);
    RunNotices(cfg, steps);
    var log := Run(cfg, steps).log;
    AcceptedCounted(log, e);
    CountZero(IsRefusedDelete, log);
    forall x | x in log && IsRefusedDelete(x) ensures x == DeleteCall(Refused) {}
  }

  /** An execution that cannot read its credentials and whose delete call is refused notifies again when the
      next pass deletes it. */
  lemma NotifiedTwice(cfg: Config, first: Step, second: Step)
    requires cfg.supported
    requires forall s :: s in {first, second} ==>
               s.Pass? && s.fetched && !cfg.Expired(s.at) && s.rep.setup == Misconfigured
    requires first.answer == Refused && second.answer == Stored
    ensures var e := Notified(Body(cfg, NoPhase, Error));
            Run(cfg, [first, second]).log == [e, DeleteCall(Refused), e, DeleteCall(Stored)]
  {
    assert [first, second] == [first] + [second] && [first] == [] + [first];
    RunSnoc(cfg, [], first);
    RunSnoc(cfg, [first], second);
  }

  /** An execution whose process dies after it has notified, and before it calls for its deletion, notifies
      again when the next pass deletes it. */
  lemma NotifiedAfterCrash(cfg: Config, first: Step, second: Step)
    requires cfg.supported && first.Crash? && first.kept == 1 && second.Pass? && second.fetched
    requires forall s :: s in {first, second} ==> !cfg.Expired(s.at) && s.rep.setup == Misconfigured
    requires second.answer == Stored
    ensures var e := Notified(Body(cfg, NoPhase, Error));
            Run(cfg, [first, second]).log == [e, Crashed, e, DeleteCall(Stored)]
  {
    assert [first, second] == [first] + [second] && [first] == [] + [first];
    RunSnoc(cfg, [], first);
    RunSnoc(cfg, [first], second);
  }

  lemma {:induction false} AcceptedCounted(log: seq<Event>, e: Event)
    requires e in log && e.DeleteCall? && e.answer != Refused
    ensures Count(IsDelete, log) >= Count(IsRefusedDelete, log) + 1
  {
    var init, x := log[..|log| - 1], log[|log| - 1];
    assert log == init + [x];
    RefusedAreDeletes(init);
    if x != e {
      AcceptedCounted(init, e);
    }
  }

  lemma {:induction false} RefusedAreDeletes(log: seq<Event>)
    ensures Count(IsRefusedDelete, log) <= Count(IsDelete, log)
  {
    if log != [] {
      RefusedAreDeletes(log[..|log| - 1]);
    }
  }
}
