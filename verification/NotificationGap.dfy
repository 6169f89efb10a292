/** What a policy pass under way does to notifications: it removes a recipient before it adds it again. */
module NotificationGap {
  import opened Base
  import NotificationIndex
  import opened NotificationQueue
  import opened NotificationDelivery

  /** What a step does to the registration of an id under a schedule. */
  datatype Change = Keep | Drop | Put(recipient: NotificationIndex.Recipient)

  /** Only a step that gets the write lock changes anything. */
  function ChangeBy(st: State, s: Step, schedule: string, id: string): Change {
    if st.senders != map[] then Keep
    else if s.Add? && s.schedule == schedule && s.id == id then Put(s.recipient)
    else if s.Remove? && s.id == id then Drop
    else Keep
  }

  function Effect(c: Change, r: Option<NotificationIndex.Recipient>): Option<NotificationIndex.Recipient> {
    match c
    case Keep => r
    case Drop => None
    case Put(x) => Some(x)
  }

  lemma SendKeepsRecipients(st: State, sender: nat, body: NotificationIndex.Body)
    ensures BeginSend(st, sender, body).recipients == st.recipients
    ensures EndSend(st, sender).recipients == st.recipients
  {
  }

  lemma ReceiveKeepsRecipients(st: State, w: nat)
    ensures ReceiveBy(st, w).recipients == st.recipients
  {
  }

  lemma WorkKeepsRecipients(st: State, w: nat, id: string)
    ensures SnapshotBy(st, w).recipients == st.recipients && FinishBy(st, w).recipients == st.recipients
    ensures NotifyBy(st, w, id).recipients == st.recipients
  {
  }

  lemma OthersKeepRecipients(st: State, s: Step)
    requires !s.Add? && !s.Remove?
    ensures Apply(st, s).recipients == st.recipients
  {
    match s
    case SendBegin(sender, body) => SendKeepsRecipients(st, sender, body);
    case SendEnd(sender) => SendKeepsRecipients(st, sender, NotificationIndex.Body("", "", "", ""));
    case Receive(w) => ReceiveKeepsRecipients(st, w);
    case TakeSnapshot(w) => WorkKeepsRecipients(st, w, "");
    case Notify(w, id, _) => WorkKeepsRecipients(st, w, id);
    case Finish(w) => WorkKeepsRecipients(st, w, "");
    case _ =>
  }

  lemma ChangeDecides(st: State, s: Step, schedule: string, id: string)
    ensures NotificationIndex.At(Apply(st, s).recipients, schedule, id) ==
            Effect(ChangeBy(st, s, schedule, id), NotificationIndex.At(st.recipients, schedule, id))
  {
    if !s.Add? && !s.Remove? {
      OthersKeepRecipients(st, s);
    }
  }

  lemma RunSnoc(threads: nat, steps: seq<Step>, s: Step)
    ensures Run(threads, steps + [s]) == Apply(Run(threads, steps), s)
  {
    assert (steps + [s])[..|steps|] == steps;
  }

  lemma RunNext(threads: nat, steps: seq<Step>, i: nat)
    requires i < |steps|
    ensures Run(threads, steps[..i + 1]) == Apply(Run(threads, steps[..i]), steps[i])
  {
    assert steps[..i + 1] == steps[..i] + [steps[i]];
    RunSnoc(threads, steps[..i], steps[i]);
  }

  // ---------------------------------------------------------------- the window

  /** The changes that a run makes to a registration, step by step. */
  function Changes(threads: nat, steps: seq<Step>, schedule: string, id: string): seq<Change> {
    seq(|steps|, i requires 0 <= i < |steps| => ChangeBy(Run(threads, steps[..i]), steps[i], schedule, id))
  }

  /** The registration before the i-th step. */
  function Registration(threads: nat, steps: seq<Step>, schedule: string, id: string, i: nat)
    : Option<NotificationIndex.Recipient>
    requires i <= |steps|
  {
    NotificationIndex.At(Run(threads, steps[..i]).recipients, schedule, id)
  }

  lemma RegistrationFollows(threads: nat, steps: seq<Step>, schedule: string, id: string, i: nat)
    requires i < |steps|
    ensures Registration(threads, steps, schedule, id, i + 1) ==
            Effect(Changes(threads, steps, schedule, id)[i], Registration(threads, steps, schedule, id, i))
  {
    RunNext(threads, steps, i);
    ChangeDecides(Run(threads, steps[..i]), steps[i], schedule, id);
  }

  /** Between `lo` and `hi` just one pass changes the registration: it drops it at step `from` and makes it
      again at step `to`, and perhaps more often after that. */
  ghost predicate OnePass(changes: seq<Change>, lo: nat, from: nat, to: nat, hi: nat) {
    && lo <= from < to < hi <= |changes|
    && changes[from] == Drop && changes[to].Put?
    && forall i :: lo <= i < hi && i != from && changes[i] != Keep ==> i >= to && changes[i].Put?
  }

  /** A value that follows such changes is there around the pass, and not from the removal until it is put back. */
  lemma {:induction false} Window(values: seq<Option<NotificationIndex.Recipient>>, changes: seq<Change>,
                                  lo: nat, from: nat, to: nat, hi: nat, i: nat)
    requires OnePass(changes, lo, from, to, hi) && lo <= i <= hi && |values| == |changes| + 1
    requires forall j :: 0 <= j < |changes| ==> values[j + 1] == Effect(changes[j], values[j])
    requires values[lo].Some?
    ensures values[i].None? <==> from < i <= to
    decreases i
  {
    if i > lo {
      Window(values, changes, lo, from, to, hi, i - 1);
      assert values[i - 1 + 1] == Effect(changes[i - 1], values[i - 1]);
    }
  }

  lemma RegisteredBut(threads: nat, steps: seq<Step>, lo: nat, from: nat, to: nat, hi: nat,
                      schedule: string, id: string, i: nat)
    requires OnePass(Changes(threads, steps, schedule, id), lo, from, to, hi) && lo <= i <= hi
    requires Registration(threads, steps, schedule, id, lo).Some?
    ensures Registration(threads, steps, schedule, id, i).None? <==> from < i <= to
  {
    var values := seq(|steps| + 1, j requires 0 <= j <= |steps| => Registration(threads, steps, schedule, id, j));
    AllFollow(threads, steps, schedule, id, values);
    Window(values, Changes(threads, steps, schedule, id), lo, from, to, hi, i);
  }

  lemma AllFollow(threads: nat, steps: seq<Step>, schedule: string, id: string,
                  values: seq<Option<NotificationIndex.Recipient>>)
    requires |values| == |steps| + 1
    requires forall j :: 0 <= j <= |steps| ==> values[j] == Registration(threads, steps, schedule, id, j)
    ensures forall j :: 0 <= j < |steps| ==>
              values[j + 1] == Effect(Changes(threads, steps, schedule, id)[j], values[j])
  {
    forall j | 0 <= j < |steps| ensures values[j + 1] == Effect(Changes(threads, steps, schedule, id)[j], values[j]) {
      RegistrationFollows(threads, steps, schedule, id, j);
    }
  }

  /** The worker holds a body of the schedule. */
  ghost predicate Holds(st: State, w: nat, schedule: string) {
    w < |st.workers| && st.workers[w].Holding? && st.workers[w].body.schedule == schedule
  }

  /** A snapshot holds an id exactly when it is registered at that moment. */
  lemma SnapshotSees(st: State, w: nat, schedule: string, id: string)
    requires Holds(st, w, schedule)
    ensures var after := SnapshotBy(st, w).snapshots;
            && st.workers[w].ticket in after
            && (id in after[st.workers[w].ticket] <==> NotificationIndex.At(st.recipients, schedule, id).Some?)
  {
  }

  /** A worker that takes its snapshot around a pass over an active policy misses the policy's recipient if and
      only if it does so after the removal and before the addition. */
  lemma MissedIff(threads: nat, steps: seq<Step>, lo: nat, from: nat, to: nat, hi: nat,
                  schedule: string, id: string, i: nat, w: nat)
    requires OnePass(Changes(threads, steps, schedule, id), lo, from, to, hi) && lo <= i < hi
    requires Registration(threads, steps, schedule, id, lo).Some?
    requires steps[i] == TakeSnapshot(w) && Holds(Run(threads, steps[..i]), w, schedule)
    ensures Registration(threads, steps, schedule, id, hi).Some?
    ensures var st := Run(threads, steps[..i]);
            var snapshots := SnapshotBy(st, w).snapshots;
            && st.workers[w].ticket in snapshots
            && (id !in snapshots[st.workers[w].ticket] <==> from < i < to)
  {
    RegisteredBut(threads, steps, lo, from, to, hi, schedule, id, i);
    RegisteredBut(threads, steps, lo, from, to, hi, schedule, id, hi);
    StepIsNoChange(threads, steps, schedule, id, i);
    MissedNow(Run(threads, steps[..i]), w, schedule, id, Changes(threads, steps, schedule, id), from, to, i);
  }

  /** The same of one state, and of the changes around it. */
  lemma MissedNow(st: State, w: nat, schedule: string, id: string, changes: seq<Change>, from: nat, to: nat, i: nat)
    requires Holds(st, w, schedule) && i < |changes| && to < |changes|
    requires changes[i] == Keep && changes[to].Put?
    requires NotificationIndex.At(st.recipients, schedule, id).None? <==> from < i <= to
    ensures var snapshots := SnapshotBy(st, w).snapshots;
            && st.workers[w].ticket in snapshots
            && (id !in snapshots[st.workers[w].ticket] <==> from < i < to)
  {
    SnapshotSees(st, w, schedule, id);
  }

  lemma StepIsNoChange(threads: nat, steps: seq<Step>, schedule: string, id: string, i: nat)
    requires i < |steps| && steps[i].TakeSnapshot?
    ensures Changes(threads, steps, schedule, id)[i] == Keep
  {
  }

  // ---------------------------------------------------------------- what is missed stays missed

  lemma SnapshotStays(st: State, s: Step, n: nat)
    requires Delivers(st) && n in st.snapshots
    ensures n in Apply(st, s).snapshots && Apply(st, s).snapshots[n] == st.snapshots[n]
  {
    if s.TakeSnapshot? {
      if s.worker < |st.workers| {
        assert WorkerFair(st, st.workers[s.worker]);
      }
    } else {
      SnapshotsOnlyTaken(st, s);
    }
  }

  lemma {:induction false} SnapshotKept(threads: nat, steps: seq<Step>, i: nat, n: nat)
    requires i <= |steps| && n in Run(threads, steps[..i]).snapshots
    ensures n in Run(threads, steps).snapshots &&
            Run(threads, steps).snapshots[n] == Run(threads, steps[..i]).snapshots[n]
    decreases |steps|
  {
    if i == |steps| {
      assert steps[..i] == steps;
    } else {
      var init := steps[..|steps| - 1];
      assert init[..i] == steps[..i];
      SnapshotKept(threads, init, i, n);
      RunDelivers(threads, init);
      SnapshotStays(Run(threads, init), steps[|steps| - 1], n);
    }
  }

  /** A recipient that a body's snapshot misses is never offered that body. */
  lemma MissedForGood(threads: nat, steps: seq<Step>, i: nat, n: nat, id: string, r: NotificationIndex.Recipient)
    requires i <= |steps| && n in Run(threads, steps[..i]).snapshots && id !in Run(threads, steps[..i]).snapshots[n]
    ensures Run(threads, steps).offered[Offer(n, id, r)] == 0
  {
    var st := Run(threads, steps);
    SnapshotKept(threads, steps, i, n);
    RunDelivers(threads, steps);
    NeverOffered(st, n, id, r);
  }

  lemma NeverOffered(st: State, n: nat, id: string, r: NotificationIndex.Recipient)
    requires Delivers(st) && n in st.snapshots && id !in st.snapshots[n]
    ensures st.offered[Offer(n, id, r)] == 0
  {
    assert n < st.taken by {
      assert n >= st.taken ==> Untouched(st, n);
    }
    if !Free(st.workers, n) {
      var w :| 0 <= w < |st.workers| && Busy(st.workers[w]) && st.workers[w].ticket == n;
      assert WorkerFair(st, st.workers[w]);
    }
  }

  // ---------------------------------------------------------------- a run that misses a recipient

  function Accepting(r: NotificationIndex.Recipient, body: NotificationIndex.Body): seq<Step> {
    [Step.Add(body.schedule, "ops", r), SendBegin(0, body), SendEnd(0), Receive(0)]
  }

  function Passing(r: NotificationIndex.Recipient, body: NotificationIndex.Body): seq<Step> {
    [Step.Remove("ops"), TakeSnapshot(0), Step.Add(body.schedule, "ops", r)]
  }

  /** The service with one recipient, one worker and the body in its hands. */
  function InHand(r: NotificationIndex.Recipient, body: NotificationIndex.Body): State {
    Start(1).(recipients := map[body.schedule := map["ops" := r]], sent := 1, accepted := [body], taken := 1,
              workers := [Holding(0, body)])
  }

  lemma Accept(r: NotificationIndex.Recipient, body: NotificationIndex.Body)
    ensures var st := Apply(Start(1), Step.Add(body.schedule, "ops", r));
            ReceiveBy(EndSend(BeginSend(st, 0, body), 0), 0) == InHand(r, body)
  {
    var st1 := Start(1).(recipients := map[body.schedule := map["ops" := r]]);
    var st2 := st1.(senders := map[0 := body]);
    var st3 := st1.(queue := [body], sent := 1, accepted := [body]);
    assert Apply(Start(1), Step.Add(body.schedule, "ops", r)) == st1;
    assert BeginSend(st1, 0, body) == st2;
    assert EndSend(st2, 0) == st3 by {
      assert st2.senders - {0} == map[];
    }
    assert ReceiveBy(st3, 0) == InHand(r, body);
  }

  lemma Accepted(r: NotificationIndex.Recipient, body: NotificationIndex.Body)
    ensures Run(1, Accepting(r, body)) == InHand(r, body)
  {
    var add := Step.Add(body.schedule, "ops", r);
    Accept(r, body);
    RunSnoc(1, [], add);
    RunSnoc(1, [add], SendBegin(0, body));
    RunSnoc(1, [add] + [SendBegin(0, body)], SendEnd(0));
    RunSnoc(1, [add] + [SendBegin(0, body)] + [SendEnd(0)], Receive(0));
    assert [] + [add] == [add];
    assert Accepting(r, body) == [add] + [SendBegin(0, body)] + [SendEnd(0)] + [Receive(0)];
  }

  /** The same after the snapshot, which found no one. */
  function InVain(r: NotificationIndex.Recipient, body: NotificationIndex.Body): State {
    InHand(r, body).(workers := [Delivering(0, body, map[])], snapshots := map[0 := map[]])
  }

  lemma PassOver(r: NotificationIndex.Recipient, body: NotificationIndex.Body)
    ensures var st := Apply(InHand(r, body), Step.Remove("ops"));
            Apply(SnapshotBy(st, 0), Step.Add(body.schedule, "ops", r)) == InVain(r, body)
  {
    var st1 := InHand(r, body).(recipients := map[body.schedule := map[]]);
    var st2 := st1.(workers := [Delivering(0, body, map[])], snapshots := map[0 := map[]]);
    assert Apply(InHand(r, body), Step.Remove("ops")) == st1;
    assert SnapshotBy(st1, 0) == st2;
    assert Apply(st2, Step.Add(body.schedule, "ops", r)) == st2.(recipients := InHand(r, body).recipients);
  }

  lemma Passed(r: NotificationIndex.Recipient, body: NotificationIndex.Body)
    ensures Run(1, Accepting(r, body) + Passing(r, body)) == InVain(r, body)
  {
    var first := Accepting(r, body);
    Accepted(r, body);
    PassOver(r, body);
    RunSnoc(1, first, Step.Remove("ops"));
    RunSnoc(1, first + [Step.Remove("ops")], TakeSnapshot(0));
    RunSnoc(1, first + [Step.Remove("ops")] + [TakeSnapshot(0)], Step.Add(body.schedule, "ops", r));
    assert first + Passing(r, body) ==
           first + [Step.Remove("ops")] + [TakeSnapshot(0)] + [Step.Add(body.schedule, "ops", r)];
  }

  /** The body was accepted and its schedule's recipient is registered before and after the pass, yet however
      the run goes on the recipient is never offered the body. */
  lemma LostInPass(r: NotificationIndex.Recipient, body: NotificationIndex.Body, more: seq<Step>,
                   x: NotificationIndex.Recipient)
    ensures NotificationIndex.At(Run(1, Accepting(r, body)).recipients, body.schedule, "ops") == Some(r)
    ensures var after := Run(1, Accepting(r, body) + Passing(r, body));
            NotificationIndex.At(after.recipients, body.schedule, "ops") == Some(r) && after.accepted == [body]
    ensures Run(1, Accepting(r, body) + Passing(r, body) + more).offered[Offer(0, "ops", x)] == 0
  {
    var steps := Accepting(r, body) + Passing(r, body);
    Accepted(r, body);
    Passed(r, body);
    assert (steps + more)[..7] == steps;
    MissedForGood(1, steps + more, 7, 0, "ops", x);
  }
}
