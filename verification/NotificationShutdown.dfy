/** A closed notification service comes to its end: its workers have a known number of steps left. */
module NotificationShutdown {
  import opened NotificationQueue
  import NotificationIndex

  /** The steps from a body in a worker's hands to the worker's end: snapshot, notifications, finish, stop. */
  function BodyCost(rs: NotificationIndex.Recipients, body: NotificationIndex.Body): nat {
    |NotificationIndex.RecipientsOf(rs, body.schedule)| + 3
  }

  function QueueCost(rs: NotificationIndex.Recipients, queue: seq<NotificationIndex.Body>): nat {
    if queue == [] then 0 else BodyCost(rs, queue[0]) + QueueCost(rs, queue[1..])
  }

  function WorkerCost(rs: NotificationIndex.Recipients, w: Worker): nat {
    match w
    case Idle => 1
    case Holding(_, body) => BodyCost(rs, body)
    case Delivering(_, _, left) => |left| + 2
    case Stopped => 0
  }

  function WorkersCost(rs: NotificationIndex.Recipients, ws: seq<Worker>): nat {
    if ws == [] then 0 else WorkersCost(rs, ws[..|ws| - 1]) + WorkerCost(rs, ws[|ws| - 1])
  }

  /** The steps that the workers have left. */
  function Work(st: State): nat {
    QueueCost(st.recipients, st.queue) + WorkersCost(st.recipients, st.workers)
  }

  lemma {:induction false} CostUpdate(rs: NotificationIndex.Recipients, ws: seq<Worker>, i: nat, x: Worker)
    requires i < |ws|
    ensures WorkersCost(rs, ws[i := x]) + WorkerCost(rs, ws[i]) == WorkersCost(rs, ws) + WorkerCost(rs, x)
  {
    var last := |ws| - 1;
    if i == last {
      assert ws[i := x][..last] == ws[..last];
    } else {
      assert ws[i := x][..last] == ws[..last][i := x];
      CostUpdate(rs, ws[..last], i, x);
    }
  }

  predicate ByWorker(s: Step) {
    s.Receive? || s.TakeSnapshot? || s.Notify? || s.Finish?
  }

  /** A worker's step that does something. */
  ghost predicate Useful(st: State, s: Step) {
    ByWorker(s) && Apply(st, s) != st
  }

  /** One step done. */
  ghost predicate OneLess(st: State, st': State) {
    st'.closed == st.closed && st'.recipients == st.recipients && Work(st') + 1 == Work(st)
  }

  lemma ReceiveWorks(st: State, w: nat)
    requires st.closed && w < |st.workers| && st.workers[w] == Idle
    ensures OneLess(st, ReceiveBy(st, w))
  {
    CostUpdate(st.recipients, st.workers, w, if st.queue == [] then Stopped else Holding(st.taken, st.queue[0]));
  }

  lemma SnapshotWorks(st: State, w: nat)
    requires w < |st.workers| && st.workers[w].Holding?
    ensures OneLess(st, SnapshotBy(st, w))
  {
    CostUpdate(st.recipients, st.workers, w, SnapshotBy(st, w).workers[w]);
  }

  lemma NotifyWorks(st: State, w: nat, id: string)
    requires w < |st.workers| && st.workers[w].Delivering? && id in st.workers[w].left
    ensures OneLess(st, NotifyBy(st, w, id))
  {
    var d := st.workers[w];
    assert (d.left - {id}).Keys == d.left.Keys - {id};
    assert |d.left.Keys| == |(d.left - {id}).Keys| + 1;
    CostUpdate(st.recipients, st.workers, w, d.(left := d.left - {id}));
  }

  lemma FinishWorks(st: State, w: nat)
    requires w < |st.workers| && st.workers[w].Delivering? && st.workers[w].left == map[]
    ensures OneLess(st, FinishBy(st, w))
  {
    CostUpdate(st.recipients, st.workers, w, Idle);
  }

  /** Once the service is closed, each step of a worker that does anything leaves one step less. */
  lemma StepWorks(st: State, s: Step)
    requires st.closed && Useful(st, s)
    ensures OneLess(st, Apply(st, s))
  {
    match s
    case Receive(w) => ReceiveWorks(st, w);
    case TakeSnapshot(w) => SnapshotWorks(st, w);
    case Notify(w, id, _) => NotifyWorks(st, w, id);
    case Finish(w) => FinishWorks(st, w);
  }

  /** As long as a worker has not stopped, some worker's step does something. */
  lemma SomeStep(st: State) returns (s: Step)
    requires st.closed && !AllStopped(st.workers)
    ensures Useful(st, s)
  {
    var w :| 0 <= w < |st.workers| && st.workers[w] != Stopped;
    match st.workers[w] {
      case Idle =>
        s := Receive(w);
        ReceiveWorks(st, w);
      case Holding(_, _) =>
        s := TakeSnapshot(w);
        SnapshotWorks(st, w);
      case Delivering(_, _, left) =>
        if left == map[] {
          s := Finish(w);
          FinishWorks(st, w);
        } else {
          var id :| id in left;
          s := Notify(w, id, true);
          NotifyWorks(st, w, id);
        }
    }
  }

  /** The state after more steps. */
  function After(st: State, more: seq<Step>): State
    decreases |more|
  {
    if more == [] then st else After(Apply(st, more[0]), more[1..])
  }

  lemma {:induction false} AfterRuns(threads: nat, steps: seq<Step>, more: seq<Step>)
    ensures Run(threads, steps + more) == After(Run(threads, steps), more)
    decreases |more|
  {
    if more == [] {
      assert steps + more == steps;
    } else {
      assert (steps + [more[0]])[..|steps|] == steps;
      assert steps + more == (steps + [more[0]]) + more[1..];
      AfterRuns(threads, steps + [more[0]], more[1..]);
    }
  }

  /** Every step of `more` is a worker's and does something. */
  ghost predicate Works(st: State, more: seq<Step>)
    decreases |more|
  {
    more != [] ==> Useful(st, more[0]) && Works(Apply(st, more[0]), more[1..])
  }

  /** However the workers of a closed service take turns, they take no more steps than they have left. */
  lemma {:induction false} WorkRunsOut(st: State, more: seq<Step>)
    requires st.closed && Works(st, more)
    ensures After(st, more).closed && Work(After(st, more)) + |more| == Work(st)
    decreases |more|
  {
    if more != [] {
      StepWorks(st, more[0]);
      WorkRunsOut(Apply(st, more[0]), more[1..]);
    }
  }

  /** When none of them can do anything more, all have stopped and `Start` returns. */
  lemma ThenReturns(st: State)
    requires st.closed && forall s :: !Useful(st, s)
    ensures AllStopped(st.workers) && Apply(st, Return).returned
  {
    if !AllStopped(st.workers) {
      var s := SomeStep(st);
      assert false;
    }
  }

  lemma {:induction false} WorkersStop(st: State) returns (more: seq<Step>)
    requires st.closed
    ensures Works(st, more) && |more| <= Work(st)
    ensures After(st, more + [Return]).returned
    decreases Work(st)
  {
    more := [];
    if AllStopped(st.workers) {
      assert more + [Return] == [Return] && [Return][1..] == [];
    } else {
      var s := SomeStep(st);
      StepWorks(st, s);
      var rest := WorkersStop(Apply(st, s));
      more := [s] + rest;
      assert more[1..] == rest;
      assert (more + [Return])[1..] == rest + [Return];
    }
  }

  /** From every closed state of every run, at most as many worker steps as are left bring the service to its
      return. */
  lemma ShutdownReturns(threads: nat, steps: seq<Step>) returns (more: seq<Step>)
    requires Run(threads, steps).closed
    ensures Works(Run(threads, steps), more) && |more| <= Work(Run(threads, steps))
    ensures Run(threads, steps + (more + [Return])).returned
  {
    more := WorkersStop(Run(threads, steps));
    AfterRuns(threads, steps, more + [Return]);
  }
}
