/** The vertical-scaling handler and the controller that drives it, one pass at a time. */
module ScaleProtocol {
  import opened Base
  import Aurora

  datatype Phase =
    | NoPhase
    | Initialization
    | ScalingReplicas
    | WaitReplicas
    | PerformingFailover
    | WaitWriterFailover
    | ScalingWriter
    | WaitOldWriter
    | Completed
    | TimedOut
    | OtherPhase(name: string)

  /** The persisted status: the phase and the two entries of the state data (absent entries are empty). */
  datatype Status = Status(phase: Phase, writer: string, readers: seq<string>)

  /** What the operator and the execution's spec fix for a whole run. Times are in nanoseconds;
      `parameters` is the decoded instance class, or `None` when the text does not decode. */
  datatype Config = Config(cluster: string, parameters: Option<string>, supported: bool,
                           actionName: string, actionType: string, target: string,
                           timeout: int, created: Option<int>)
  {
    function Class(): string {
      if parameters.Some? then parameters.value else ""
    }

    function Timeout(): int {
      if timeout <= 0 then 30 * MINUTE else timeout
    }

    predicate Expired(at: int) {
      created.Some? && at - created.value > Timeout()
    }
  }

  const SECOND: int := 1_000_000_000
  const MINUTE: int := 60 * SECOND

  /** Fetching the target and its credentials before the state machine runs. */
  datatype Setup = Ready | TargetUnavailable | Misconfigured

  datatype StoreReply = Stored | NotFound | Refused

  /** Every answer the environment may give during one pass. */
  datatype Replies = Replies(setup: Setup, describe: Aurora.ClusterReply, again: Aurora.ClusterReply,
                             modified: seq<bool>, check: seq<Aurora.InstancesReply>, failover: bool)

  datatype Outcome = Success | Error | Timeout

  datatype NotificationBody = NotificationBody(schedule: string, action: string, resource: string,
                                               status: Outcome, phase: Phase)

  /** What a run leaves in its history: each call with its answer, in order. */
  datatype Event =
    | DescribeCall(reply: Aurora.ClusterReply)
    | ModifyCall(id: string, instanceClass: string, ok: bool)
    | CheckCall(ids: seq<string>, instanceClass: string, replies: seq<Aurora.InstancesReply>)
    | FailoverCall(ok: bool)
    | StatusWrite(status: Status, answer: StoreReply)
    | Notified(body: NotificationBody)
    | DeleteCall(answer: StoreReply)
    | Crashed

  datatype Requeue = NoRequeue | AtOnce | After(delay: int)

  /** One execution of the handler: the calls it made, the status it leaves in memory and its results. */
  datatype Result = Result(calls: seq<Event>, status: Status, done: bool, failed: bool, requeue: Requeue)

  function Retry(calls: seq<Event>, st: Status): Result {
    Result(calls, st, false, true, NoRequeue)
  }

  function Wait(calls: seq<Event>, st: Status, requeue: Requeue): Result {
    Result(calls, st, false, false, requeue)
  }

  function Abort(st: Status): Result {
    Result([], st, true, true, NoRequeue)
  }

  function Answer(replies: seq<bool>, i: nat): bool {
    i < |replies| && replies[i]
  }

  /** The modify calls for the readers from `i` on: they stop at the first failure. */
  function ModifyCalls(readers: seq<string>, instanceClass: string, replies: seq<bool>, i: nat := 0): (es: seq<Event>)
    requires i <= |readers|
    ensures |es| <= |readers| - i
    ensures forall k :: 0 <= k < |es| ==> es[k] == ModifyCall(readers[i + k], instanceClass, Answer(replies, i + k))
    ensures forall k :: 0 <= k < |es| - 1 ==> es[k].ok
    ensures |es| < |readers| - i ==> es != [] && !es[|es| - 1].ok
    decreases |readers| - i
  {
    if i == |readers| then []
    else
      [ModifyCall(readers[i], instanceClass, Answer(replies, i))] +
      if Answer(replies, i) then ModifyCalls(readers, instanceClass, replies, i + 1) else []
  }

  /** When every answer is positive, every reader gets its call. */
  lemma {:induction false} CompleteCalls(readers: seq<string>, instanceClass: string, replies: seq<bool>, i: nat)
    requires i <= |readers| && forall k :: i <= k < |readers| ==> Answer(replies, k)
    ensures |ModifyCalls(readers, instanceClass, replies, i)| == |readers| - i
    decreases |readers| - i
  {
    if i < |readers| {
      CompleteCalls(readers, instanceClass, replies, i + 1);
    }
  }

  predicate AllModified(readers: seq<string>, replies: seq<bool>) {
    forall i :: 0 <= i < |readers| ==> Answer(replies, i)
  }

  function Initialize(cfg: Config, st: Status, rep: Replies): Result {
    var calls := [DescribeCall(rep.describe)];
    match Aurora.Describe(cfg.cluster, rep.describe)
    case DescribeFailed => Retry(calls, st)
    case Described(writer, readers) =>
      if writer == "" then Retry(calls, st)
      else if readers == [] then Wait(calls, Status(ScalingWriter, writer, readers), AtOnce)
      else Wait(calls, Status(ScalingReplicas, writer, readers), AtOnce)
  }

  function ScaleReplicas(cfg: Config, st: Status, rep: Replies): Result {
    var calls := ModifyCalls(st.readers, cfg.Class(), rep.modified);
    if AllModified(st.readers, rep.modified) then Wait(calls, st.(phase := WaitReplicas), After(30 * SECOND))
    else Retry(calls, st)
  }

  function AwaitReplicas(cfg: Config, st: Status, rep: Replies): Result {
    var calls := [CheckCall(st.readers, cfg.Class(), rep.check)];
    match Aurora.Check(|st.readers|, cfg.Class(), rep.check)
    case CheckFailed => Retry(calls, st)
    case AllAvailable => Wait(calls, st.(phase := PerformingFailover), AtOnce)
    case NotYet => Wait(calls, st, After(MINUTE))
  }

  function FailOver(st: Status, rep: Replies): Result {
    if rep.failover then Wait([FailoverCall(true)], st.(phase := WaitWriterFailover), After(30 * SECOND))
    else Retry([FailoverCall(false)], st)
  }

  /** The writer on record, rediscovered from the cluster when the record is empty. */
  function Rediscover(cfg: Config, st: Status, reply: Aurora.ClusterReply): (seq<Event>, Status) {
    if st.writer != "" then ([], st)
    else
      var d := Aurora.Describe(cfg.cluster, reply);
      ([DescribeCall(reply)], if d.Described? then st.(writer := d.writer) else st)
  }

  function AwaitFailover(cfg: Config, st: Status, rep: Replies): Result {
    var (before, known) := Rediscover(cfg, st, rep.describe);
    var calls := before + [DescribeCall(rep.again)];
    match Aurora.Describe(cfg.cluster, rep.again)
    case DescribeFailed => Retry(calls, known)
    case Described(current, _) =>
      if current != known.writer && current != "" then Wait(calls, known.(phase := ScalingWriter), AtOnce)
      else Wait(calls, known, After(30 * SECOND))
  }

  function ScaleWriter(cfg: Config, st: Status, rep: Replies): Result {
    var (before, known) := Rediscover(cfg, st, rep.describe);
    if known.writer == "" then Retry(before, st)
    else
      var calls := before + [ModifyCall(known.writer, cfg.Class(), Answer(rep.modified, 0))];
      if Answer(rep.modified, 0) then Wait(calls, known.(phase := WaitOldWriter), After(30 * SECOND))
      else Retry(calls, known)
  }

  function AwaitOldWriter(cfg: Config, st: Status, rep: Replies): Result {
    var (before, known) := Rediscover(cfg, st, rep.describe);
    var calls := before + [CheckCall([known.writer], cfg.Class(), rep.check)];
    match Aurora.Check(1, cfg.Class(), rep.check)
    case CheckFailed => Retry(calls, known)
    case AllAvailable => Result(calls, known.(phase := Completed), true, false, NoRequeue)
    case NotYet => Wait(calls, known, After(MINUTE))
  }

  function ExecutePhase(cfg: Config, st: Status, rep: Replies): Result {
    match st.phase
    case Initialization => Initialize(cfg, st, rep)
    case ScalingReplicas => ScaleReplicas(cfg, st, rep)
    case WaitReplicas => AwaitReplicas(cfg, st, rep)
    case PerformingFailover => FailOver(st, rep)
    case WaitWriterFailover => AwaitFailover(cfg, st, rep)
    case ScalingWriter => ScaleWriter(cfg, st, rep)
    case WaitOldWriter => AwaitOldWriter(cfg, st, rep)
    case Completed => Result([], st, true, false, NoRequeue)
    case _ => Abort(st)
  }

  function Started(st: Status): Status {
    if st.phase == NoPhase then st.(phase := Initialization) else st
  }

  /** The handler as a function of the stored status and the environment's answers. */
  function Execute(cfg: Config, st: Status, rep: Replies): Result {
    if rep.setup == TargetUnavailable then Retry([], st)
    else if rep.setup == Misconfigured || cfg.Class() == "" then Abort(st)
    else ExecutePhase(cfg, Started(st), rep)
  }

  // ---------------------------------------------------------------- the controller

  /** The stored object: live, marked for deletion, or gone. */
  datatype Object = Live(status: Status) | Terminating | Gone

  datatype World = World(obj: Object, log: seq<Event>)

  function Body(cfg: Config, phase: Phase, status: Outcome): NotificationBody {
    NotificationBody(cfg.actionName, cfg.actionType, cfg.target, status, phase)
  }

  function Written(before: Object, st: Status, answer: StoreReply): Object {
    match answer
    case Stored => Live(st)
    case NotFound => Gone
    case Refused => before
  }

  function Deleted(before: Object, answer: StoreReply): Object {
    match answer
    case Stored => Terminating
    case NotFound => Gone
    case Refused => before
  }

  /** The calls with which a pass ends: notify and delete, or write the status back. */
  function Ending(cfg: Config, r: Result, answer: StoreReply): seq<Event> {
    if r.done then
      [Notified(Body(cfg, r.status.phase, if r.failed then Error else Success)), DeleteCall(answer)]
    else [StatusWrite(r.status, answer)]
  }

  /** All events of one pass over a live object. */
  function PassEvents(cfg: Config, st: Status, at: int, rep: Replies, answer: StoreReply): seq<Event> {
    if cfg.Expired(at) then [Notified(Body(cfg, TimedOut, Timeout)), DeleteCall(answer)]
    else if !cfg.supported then []
    else Execute(cfg, st, rep).calls + Ending(cfg, Execute(cfg, st, rep), answer)
  }

  function PassObject(cfg: Config, st: Status, at: int, rep: Replies, answer: StoreReply): Object {
    if cfg.Expired(at) then Deleted(Live(st), answer)
    else if !cfg.supported then Live(st)
    else
      var r := Execute(cfg, st, rep);
      if r.done then Deleted(Live(st), answer) else Written(Live(st), r.status, answer)
  }

  function Reconcile(cfg: Config, w: World, at: int, fetched: bool, rep: Replies, answer: StoreReply): World {
    if !fetched || !w.obj.Live? then w
    else
      var st := w.obj.status;
      World(PassObject(cfg, st, at, rep, answer), w.log + PassEvents(cfg, st, at, rep, answer))
  }
}
