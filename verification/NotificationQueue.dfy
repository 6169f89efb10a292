/** The notification service at work: senders, workers, policy changes and shutdown, interleaved at will. */
module NotificationQueue {
  import opened Base
  import opened NotificationIndex

  /** A body offered to a recipient; tickets number the accepted bodies. */
  datatype Offer = Offer(ticket: nat, id: string, recipient: Recipient)

  type Snapshot = map<string, Recipient>

  datatype Worker =
    | Idle
    | Holding(ticket: nat, body: Body)
    | Delivering(ticket: nat, body: Body, left: Snapshot)
    | Stopped

  /** The shared state, with a history: `senders` hold the read lock after finding the service open. */
  datatype State = State(
    queue: seq<Body>, closed: bool, panicked: bool, returned: bool,
    senders: map<nat, Body>, workers: seq<Worker>, recipients: Recipients,
    sent: nat, dropped: nat, accepted: seq<Body>, taken: nat, finished: nat,
    snapshots: map<nat, Snapshot>, offered: multiset<Offer>)

  datatype Step =
    | SendBegin(sender: nat, body: Body)
    | SendEnd(sender: nat)
    | Receive(worker: nat)
    | TakeSnapshot(worker: nat)
    | Notify(worker: nat, id: string, ok: bool)
    | Finish(worker: nat)
    | Close
    | Return
    | Add(schedule: string, id: string, recipient: Recipient)
    | Remove(id: string)

  /** Taking the read lock and finding the service open or stopped. */
  function BeginSend(st: State, sender: nat, body: Body): State {
    if sender in st.senders then st
    else if st.closed then st.(sent := st.sent + 1, dropped := st.dropped + 1)
    else st.(senders := st.senders[sender := body])
  }

  /** The non-blocking channel send, then the release of the lock; a send on a closed channel panics. */
  function EndSend(st: State, sender: nat): State {
    if sender !in st.senders then st
    else
      var rest := st.(senders := st.senders - {sender}, sent := st.sent + 1);
      if st.closed then rest.(panicked := true)
      else if |st.queue| < CAPACITY then
        rest.(queue := st.queue + [st.senders[sender]], accepted := st.accepted + [st.senders[sender]])
      else rest.(dropped := st.dropped + 1)
  }

  /** A worker takes the next body, or stops when the channel is closed and empty. */
  function ReceiveBy(st: State, w: nat): State {
    if w >= |st.workers| || st.workers[w] != Idle then st
    else if st.queue != [] then
      st.(queue := st.queue[1..], taken := st.taken + 1, workers := st.workers[w := Holding(st.taken, st.queue[0])])
    else if st.closed then st.(workers := st.workers[w := Stopped])
    else st
  }

  function SnapshotBy(st: State, w: nat): State {
    if w >= |st.workers| || !st.workers[w].Holding? then st
    else
      var n, body := st.workers[w].ticket, st.workers[w].body;
      var snap := RecipientsOf(st.recipients, body.schedule);
      st.(workers := st.workers[w := Delivering(n, body, snap)], snapshots := st.snapshots[n := snap])
  }

  /** One recipient is notified; the outcome makes no difference. */
  function NotifyBy(st: State, w: nat, id: string): State {
    if w >= |st.workers| || !st.workers[w].Delivering? || id !in st.workers[w].left then st
    else
      var d := st.workers[w];
      st.(workers := st.workers[w := d.(left := d.left - {id})],
          offered := st.offered + multiset{Offer(d.ticket, id, d.left[id])})
  }

  function FinishBy(st: State, w: nat): State {
    if w >= |st.workers| || !st.workers[w].Delivering? || st.workers[w].left != map[] then st
    else st.(workers := st.workers[w := Idle], finished := st.finished + 1)
  }

  predicate AllStopped(workers: seq<Worker>) {
    forall w :: 0 <= w < |workers| ==> workers[w] == Stopped
  }

  /** The write lock excludes the senders that hold the read lock. */
  function Apply(st: State, s: Step): State {
    match s
    case SendBegin(sender, body) => BeginSend(st, sender, body)
    case SendEnd(sender) => EndSend(st, sender)
    case Receive(w) => ReceiveBy(st, w)
    case TakeSnapshot(w) => SnapshotBy(st, w)
    case Notify(w, id, _) => NotifyBy(st, w, id)
    case Finish(w) => FinishBy(st, w)
    case Close => if st.closed || st.senders != map[] then st else st.(closed := true)
    case Return => if st.closed && AllStopped(st.workers) then st.(returned := true) else st
    case Add(schedule, id, r) =>
      if st.senders != map[] then st
      else st.(recipients := st.recipients[schedule := RecipientsOf(st.recipients, schedule)[id := r]])
    case Remove(id) =>
      if st.senders != map[] then st
      else st.(recipients := map schedule | schedule in st.recipients :: st.recipients[schedule] - {id})
  }

  function Start(threads: nat): State {
    State([], false, false, false, map[], seq(threads, _ => Idle), map[], 0, 0, [], 0, 0, map[], multiset{})
  }

  function Run(threads: nat, steps: seq<Step>): State {
    if steps == [] then Start(threads) else Apply(Run(threads, steps[..|steps| - 1]), steps[|steps| - 1])
  }

  /** A send that nothing interrupts does to the channel what the service's `Send` does. */
  lemma SendAlone(st: State, sender: nat, body: Body)
    requires sender !in st.senders
    ensures var st' := EndSend(BeginSend(st, sender, body), sender);
            && st'.queue == Sent(st.queue, st.closed, body)
            && st'.senders == st.senders && st'.panicked == st.panicked
            && st'.sent == st.sent + 1
            && |st'.accepted| + st'.dropped == |st.accepted| + st.dropped + 1
  {
    assert st.senders[sender := body] - {sender} == st.senders;
  }

  // ---------------------------------------------------------------- the queue and the lock

  predicate Busy(w: Worker) {
    w.Holding? || w.Delivering?
  }

  /** Nothing is ever sent on the closed channel, the queue is bounded and first-in-first-out, and no body
      is lost or invented. */
  ghost predicate Conserves(st: State) {
    && !st.panicked
    && (st.senders != map[] ==> !st.closed)
    && |st.queue| <= CAPACITY
    && st.taken <= |st.accepted| && st.queue == st.accepted[st.taken..]
    && st.sent == |st.accepted| + st.dropped
    && st.taken == Count(Busy, st.workers) + st.finished
    && (Stopped in st.workers ==> st.closed && st.queue == [])
    && (st.returned ==> AllStopped(st.workers) && st.closed)
  }

  lemma {:induction false} CountUpdate(ws: seq<Worker>, i: nat, w: Worker)
    requires i < |ws|
    ensures Count(Busy, ws[i := w]) + (if Busy(ws[i]) then 1 else 0) == Count(Busy, ws) + if Busy(w) then 1 else 0
  {
    var last := |ws| - 1;
    if i == last {
      assert ws[i := w][..last] == ws[..last];
    } else {
      assert ws[i := w][..last] == ws[..last][i := w];
      CountUpdate(ws[..last], i, w);
    }
  }

  lemma SendConserves(st: State, sender: nat, body: Body)
    requires Conserves(st)
    ensures Conserves(BeginSend(st, sender, body)) && Conserves(EndSend(st, sender))
  {
  }

  /** Replacing one worker's state. */
  lemma WorkerMoves(ws: seq<Worker>, w: nat, x: Worker)
    requires w < |ws| && ws[w] != Stopped && x != Stopped
    ensures Stopped in ws[w := x] ==> Stopped in ws
    ensures !AllStopped(ws)
    ensures Count(Busy, ws[w := x]) == Count(Busy, ws) - (if Busy(ws[w]) then 1 else 0) + if Busy(x) then 1 else 0
  {
    CountUpdate(ws, w, x);
  }

  lemma ReceiveConserves(st: State, w: nat)
    requires Conserves(st)
    ensures Conserves(ReceiveBy(st, w))
  {
    if w < |st.workers| && st.workers[w] == Idle {
      if st.queue != [] {
        WorkerMoves(st.workers, w, Holding(st.taken, st.queue[0]));
      } else {
        CountUpdate(st.workers, w, Stopped);
      }
    }
  }

  /** A busy worker goes on or becomes idle; nothing but its state and the delivery history changes. */
  lemma DeliveryConserves(st: State, w: nat, x: Worker, st': State)
    requires Conserves(st) && w < |st.workers| && Busy(st.workers[w]) && x != Stopped
    requires st' == st.(workers := st.workers[w := x], finished := st.finished + (if Busy(x) then 0 else 1),
                        snapshots := st'.snapshots, offered := st'.offered)
    ensures Conserves(st')
  {
    WorkerMoves(st.workers, w, x);
  }

  lemma ApplyConserves(st: State, s: Step)
    requires Conserves(st)
    ensures Conserves(Apply(st, s))
  {
    match s
    case SendBegin(sender, body) => SendConserves(st, sender, body);
    case SendEnd(sender) => SendConserves(st, sender, Body("", "", "", ""));
    case Receive(w) => ReceiveConserves(st, w);
    case TakeSnapshot(w) =>
      if Apply(st, s) != st {
        DeliveryConserves(st, w, Apply(st, s).workers[w], Apply(st, s));
      }
    case Notify(w, _, _) =>
      if Apply(st, s) != st {
        DeliveryConserves(st, w, Apply(st, s).workers[w], Apply(st, s));
      }
    case Finish(w) =>
      if Apply(st, s) != st {
        DeliveryConserves(st, w, Idle, Apply(st, s));
      }
    case _ =>
  }

  lemma StartConserves(threads: nat)
    ensures Conserves(Start(threads))
  {
    CountZero(Busy, Start(threads).workers);
  }

  lemma {:induction false} RunConserves(threads: nat, steps: seq<Step>)
    ensures Conserves(Run(threads, steps)) && |Run(threads, steps).queue| <= 256
  {
    if steps == [] {
      StartConserves(threads);
    } else {
      RunConserves(threads, steps[..|steps| - 1]);
      ApplyConserves(Run(threads, steps[..|steps| - 1]), steps[|steps| - 1]);
    }
  }

  /** In every run, a sender that has found the service open has its body accepted as the last in the queue when
      fewer than 256 bodies wait, and dropped when the queue holds 256; it never holds more. */
  lemma DropsWhenFull(threads: nat, steps: seq<Step>, sender: nat)
    requires sender in Run(threads, steps).senders
    ensures var st := Run(threads, steps);
            var st' := Apply(st, SendEnd(sender));
            var body := st.senders[sender];
            && !st.closed && st'.senders == st.senders - {sender} && st'.sent == st.sent + 1
            && (|st.queue| < 256 ==> st'.queue == st.queue + [body] && st'.accepted == st.accepted + [body])
            && (|st.queue| < 256 ==> st'.dropped == st.dropped)
            && (|st.queue| >= 256 ==> |st.queue| == 256 && st'.queue == st.queue && st'.accepted == st.accepted)
            && (|st.queue| >= 256 ==> st'.dropped == st.dropped + 1)
  {
    RunConserves(threads, steps);
  }
}
