/** Every accepted notification reaches every recipient of its schedule exactly once. */
module NotificationDelivery {
  import opened Base
  import opened NotificationQueue
  import NotificationIndex

  /** The body with this ticket has been offered once to each recipient of its snapshot but those `left`. */
  ghost predicate OfferedBut(st: State, n: nat, left: Snapshot) {
    && n in st.snapshots
    && forall id, r :: st.offered[Offer(n, id, r)] ==
         if id in st.snapshots[n] && st.snapshots[n][id] == r && id !in left then 1 else 0
  }

  ghost predicate Untouched(st: State, n: nat) {
    n !in st.snapshots && forall id, r :: st.offered[Offer(n, id, r)] == 0
  }

  ghost predicate Free(ws: seq<Worker>, n: nat) {
    forall w :: 0 <= w < |ws| && Busy(ws[w]) ==> ws[w].ticket != n
  }

  ghost predicate SubSnapshot(left: Snapshot, snap: Snapshot) {
    forall id :: id in left ==> id in snap && snap[id] == left[id]
  }

  ghost predicate WorkerFair(st: State, w: Worker) {
    && (Busy(w) ==> w.ticket < st.taken <= |st.accepted| && w.body == st.accepted[w.ticket])
    && (w.Holding? ==> Untouched(st, w.ticket))
    && (w.Delivering? ==> OfferedBut(st, w.ticket, w.left) && SubSnapshot(w.left, st.snapshots[w.ticket]))
  }

  ghost predicate Delivers(st: State) {
    && (forall w :: 0 <= w < |st.workers| ==> WorkerFair(st, st.workers[w]))
    && (forall v, w :: 0 <= v < w < |st.workers| && Busy(st.workers[v]) && Busy(st.workers[w]) ==>
          st.workers[v].ticket != st.workers[w].ticket)
    && (forall n: nat :: n < st.taken && Free(st.workers, n) ==> OfferedBut(st, n, map[]))
    && (forall n: nat :: n >= st.taken ==> Untouched(st, n))
  }

  lemma ReceiveDelivers(st: State, w: nat)
    requires Conserves(st) && Delivers(st)
    ensures Delivers(ReceiveBy(st, w))
  {
    var st' := ReceiveBy(st, w);
    if st' != st {
      assert Untouched(st, st.taken);
      forall n: nat | n >= st'.taken ensures Untouched(st', n) {
        assert Untouched(st, n);
      }
      forall v | 0 <= v < |st'.workers| ensures WorkerFair(st', st'.workers[v]) {
        assert WorkerFair(st, st.workers[v]);
      }
      forall n: nat | n < st'.taken && Free(st'.workers, n) ensures OfferedBut(st', n, map[]) {
        assert st'.workers[w].Holding? ==> n != st.taken;
        assert Free(st.workers, n) by {
          forall v | 0 <= v < |st.workers| && Busy(st.workers[v]) ensures st.workers[v].ticket != n {
            assert st'.workers[v] == st.workers[v];
          }
        }
      }
    }
  }

  /** The tickets in the hands of other workers. */
  lemma OtherTickets(st: State, w: nat, v: nat)
    requires Delivers(st) && w < |st.workers| && v < |st.workers| && v != w
    requires Busy(st.workers[w]) && Busy(st.workers[v])
    ensures st.workers[v].ticket != st.workers[w].ticket
  {
  }

  lemma FreeElsewhere(ws: seq<Worker>, w: nat, x: Worker, n: nat)
    requires w < |ws| && Busy(ws[w]) && Busy(x) && x.ticket == ws[w].ticket
    ensures Free(ws[w := x], n) <==> Free(ws, n)
  {
    forall v | 0 <= v < |ws| ensures Busy(ws[w := x][v]) == Busy(ws[v]) {}
    if Free(ws[w := x], n) {
      forall v | 0 <= v < |ws| && Busy(ws[v]) ensures ws[v].ticket != n {
        assert ws[w := x][v].ticket == ws[v].ticket;
      }
    }
  }

  /** A busy worker that keeps its ticket and touches only that ticket's history. */
  lemma SameTicketDelivers(st: State, w: nat, x: Worker, st': State)
    requires Delivers(st) && w < |st.workers| && Busy(st.workers[w]) && Busy(x) && x.ticket == st.workers[w].ticket
    requires st'.workers == st.workers[w := x] && st'.taken == st.taken && st'.accepted == st.accepted
    requires forall n :: n != x.ticket ==> (n in st'.snapshots <==> n in st.snapshots)
    requires forall n :: n != x.ticket && n in st.snapshots ==> st'.snapshots[n] == st.snapshots[n]
    requires forall o: Offer :: o.ticket != x.ticket ==> st'.offered[o] == st.offered[o]
    requires WorkerFair(st', x)
    ensures Delivers(st')
  {
    forall v | 0 <= v < |st'.workers| ensures WorkerFair(st', st'.workers[v]) {
      assert WorkerFair(st, st.workers[v]);
      if v != w && Busy(st.workers[v]) {
        OtherTickets(st, w, v);
      }
    }
    forall n: nat | n < st'.taken && Free(st'.workers, n) ensures OfferedBut(st', n, map[]) {
      FreeElsewhere(st.workers, w, x, n);
      assert st'.workers[w] == x;
    }
    forall n: nat | n >= st'.taken ensures Untouched(st', n) {
      assert Untouched(st, n) && WorkerFair(st, st.workers[w]);
    }
  }

  lemma SnapshotDelivers(st: State, w: nat)
    requires Delivers(st) && w < |st.workers| && st.workers[w].Holding?
    ensures Delivers(SnapshotBy(st, w))
  {
    var st' := SnapshotBy(st, w);
    assert WorkerFair(st, st.workers[w]);
    SameTicketDelivers(st, w, st'.workers[w], st');
  }

  lemma NotifyDelivers(st: State, w: nat, id: string)
    requires Delivers(st) && w < |st.workers| && st.workers[w].Delivering? && id in st.workers[w].left
    ensures Delivers(NotifyBy(st, w, id))
  {
    var st' := NotifyBy(st, w, id);
    var d := st.workers[w];
    assert WorkerFair(st, d);
    var x := d.(left := d.left - {id});
    assert OfferedBut(st', d.ticket, x.left) by {
      forall i, r ensures st'.offered[Offer(d.ticket, i, r)] ==
          if i in st'.snapshots[d.ticket] && st'.snapshots[d.ticket][i] == r && i !in x.left then 1 else 0
      {
        assert st'.offered[Offer(d.ticket, i, r)] ==
               st.offered[Offer(d.ticket, i, r)] + if i == id && r == d.left[id] then 1 else 0;
      }
    }
    SameTicketDelivers(st, w, x, st');
  }

  lemma FinishDelivers(st: State, w: nat)
    requires Delivers(st) && w < |st.workers| && st.workers[w].Delivering? && st.workers[w].left == map[]
    ensures Delivers(FinishBy(st, w))
  {
    var st' := FinishBy(st, w);
    assert WorkerFair(st, st.workers[w]);
    forall n: nat | n >= st'.taken ensures Untouched(st', n) {
      assert Untouched(st, n);
    }
    forall v | 0 <= v < |st'.workers| ensures WorkerFair(st', st'.workers[v]) {
      assert WorkerFair(st, st.workers[v]);
    }
    forall n: nat | n < st'.taken && Free(st'.workers, n) ensures OfferedBut(st', n, map[]) {
      if n != st.workers[w].ticket {
        forall v | 0 <= v < |st.workers| && Busy(st.workers[v]) ensures st.workers[v].ticket != n {
          assert v != w ==> st'.workers[v] == st.workers[v];
        }
        assert Free(st.workers, n);
      }
      assert OfferedBut(st, n, map[]);
    }
  }

  /** Steps that leave the workers and the delivery history alone. */
  lemma OthersDeliver(st: State, st': State)
    requires Delivers(st)
    requires st'.workers == st.workers && st'.taken == st.taken && st.accepted <= st'.accepted
    requires st'.snapshots == st.snapshots && st'.offered == st.offered
    ensures Delivers(st')
  {
    forall v | 0 <= v < |st'.workers| ensures WorkerFair(st', st'.workers[v]) {
      assert WorkerFair(st, st.workers[v]);
    }
    forall n: nat | n < st'.taken && Free(st'.workers, n) ensures OfferedBut(st', n, map[]) {
      assert OfferedBut(st, n, map[]);
    }
    forall n: nat | n >= st'.taken ensures Untouched(st', n) {
      assert Untouched(st, n);
    }
  }

  lemma WorkersKept(st: State, s: Step)
    ensures |Apply(st, s).workers| == |st.workers|
  {
    match s
    case Receive(w) => assert |ReceiveBy(st, w).workers| == |st.workers|;
    case _ =>
  }

  lemma ApplyDelivers(st: State, s: Step)
    requires Conserves(st) && Delivers(st)
    ensures Delivers(Apply(st, s))
  {
    if Apply(st, s) != st {
      match s
      case Receive(w) => ReceiveDelivers(st, w);
      case TakeSnapshot(w) => SnapshotDelivers(st, w);
      case Notify(w, id, _) => NotifyDelivers(st, w, id);
      case Finish(w) => FinishDelivers(st, w);
      case _ => OthersDeliver(st, Apply(st, s));
    }
  }

  lemma {:induction false} RunDelivers(threads: nat, steps: seq<Step>)
    ensures Delivers(Run(threads, steps)) && |Run(threads, steps).workers| == threads
  {
    if steps != [] {
      RunDelivers(threads, steps[..|steps| - 1]);
      RunConserves(threads, steps[..|steps| - 1]);
      ApplyDelivers(Run(threads, steps[..|steps| - 1]), steps[|steps| - 1]);
      WorkersKept(Run(threads, steps[..|steps| - 1]), steps[|steps| - 1]);
    }
  }

  /** Once `Start` has returned: nothing is queued or in flight, every accepted body is finished, and it was
      offered exactly once to each recipient of its snapshot and to no one else, whatever the senders, the
      policies and the failing recipients did. */
  lemma ShutdownDrains(threads: nat, steps: seq<Step>, n: nat)
    requires threads > 0 && Run(threads, steps).returned && n < |Run(threads, steps).accepted|
    ensures var st := Run(threads, steps);
            && st.queue == [] && st.finished == |st.accepted| && st.sent == st.finished + st.dropped
            && OfferedBut(st, n, map[])
  {
    var st := Run(threads, steps);
    RunConserves(threads, steps);
    RunDelivers(threads, steps);
    assert st.workers[0] in st.workers;
    CountZero(Busy, st.workers);
    assert Free(st.workers, n);
  }

  lemma AcceptedGrows(st: State, s: Step)
    ensures st.accepted <= Apply(st, s).accepted
  {
    match s
    case SendEnd(sender) => assert st.accepted <= EndSend(st, sender).accepted;
    case _ =>
  }

  lemma SnapshotsOnlyTaken(st: State, s: Step)
    requires !s.TakeSnapshot?
    ensures Apply(st, s).snapshots == st.snapshots
  {
    match s
    case SendEnd(sender) => SendKeepsSnapshots(st, sender);
    case Receive(w) => assert ReceiveBy(st, w).snapshots == st.snapshots;
    case Notify(w, id, _) => assert NotifyBy(st, w, id).snapshots == st.snapshots;
    case _ =>
  }

  lemma SendKeepsSnapshots(st: State, sender: nat)
    ensures EndSend(st, sender).snapshots == st.snapshots
  {
  }

  /** One step either keeps a body's snapshot or takes it from the recipients as they are. */
  lemma SnapshotStep(st: State, s: Step, n: nat)
    requires Conserves(st) && Delivers(st) && n in Apply(st, s).snapshots
    ensures st.accepted <= Apply(st, s).accepted && n < |st.accepted|
    ensures || (n in st.snapshots && Apply(st, s).snapshots[n] == st.snapshots[n])
            || Apply(st, s).snapshots[n] == NotificationIndex.RecipientsOf(st.recipients, st.accepted[n].schedule)
  {
    AcceptedGrows(st, s);
    if !s.TakeSnapshot? {
      SnapshotsOnlyTaken(st, s);
    }
    if n in st.snapshots {
      assert n < st.taken by {
        assert n >= st.taken ==> Untouched(st, n);
      }
    }
    if s.TakeSnapshot? && s.worker < |st.workers| {
      assert WorkerFair(st, st.workers[s.worker]);
    }
  }

  /** The snapshot of a body is the set of recipients its schedule had at some moment of the run. */
  lemma {:induction false} SnapshotWasCurrent(threads: nat, steps: seq<Step>, n: nat)
    requires n in Run(threads, steps).snapshots
    ensures n < |Run(threads, steps).accepted|
    ensures exists i :: 0 <= i <= |steps| &&
              Run(threads, steps).snapshots[n] ==
              NotificationIndex.RecipientsOf(Run(threads, steps[..i]).recipients,
                                             Run(threads, steps).accepted[n].schedule)
  {
    var init := steps[..|steps| - 1];
    var st, st' := Run(threads, init), Run(threads, steps);
    RunDelivers(threads, init);
    RunConserves(threads, init);
    SnapshotStep(st, steps[|steps| - 1], n);
    if n in st.snapshots && st'.snapshots[n] == st.snapshots[n] {
      SnapshotWasCurrent(threads, init, n);
      var i :| 0 <= i <= |init| &&
               st.snapshots[n] ==
               NotificationIndex.RecipientsOf(Run(threads, init[..i]).recipients, st.accepted[n].schedule);
      assert init[..i] == steps[..i];
    } else {
      assert steps[..|init|] == init;
    }
  }
}
