/** The handler and the controller as the objects they are: both are proved against `ScaleProtocol`. */
module ScaleController {
  import opened ScaleProtocol
  import Aurora

  /** The execution object a pass works on: the handler updates it in place. */
  class ActionExecution {
    var phase: Phase
    var writer: string
    var readers: seq<string>

    constructor (st: Status)
      ensures Current() == st
    {
      phase, writer, readers := st.phase, st.writer, st.readers;
    }

    function Current(): Status
      reads this
    {
      Status(phase, writer, readers)
    }
  }

  class GenericScaleHandler {
    const cfg: Config
    var calls: seq<Event>

    constructor (cfg: Config)
      ensures this.cfg == cfg && calls == []
    {
      this.cfg, calls := cfg, [];
    }

    method DescribeCluster(reply: Aurora.ClusterReply) returns (d: Aurora.Description)
      modifies this
      ensures d == Aurora.Describe(cfg.cluster, reply)
      ensures calls == old(calls) + [DescribeCall(reply)]
    {
      d := Aurora.DescribeCluster(cfg.cluster, reply);
      calls := calls + [DescribeCall(reply)];
    }

    method ModifyReaders(readers: seq<string>, replies: seq<bool>) returns (ok: bool)
      modifies this
      ensures ok == AllModified(readers, replies)
      ensures calls == old(calls) + ModifyCalls(readers, cfg.Class(), replies)
    {
      ghost var all := ModifyCalls(readers, cfg.Class(), replies);
      for i := 0 to |readers|
        invariant forall k :: 0 <= k < i ==> Answer(replies, k)
        invariant old(calls) + all == calls + ModifyCalls(readers, cfg.Class(), replies, i)
      {
        var answer := Answer(replies, i);
        ghost var rest := ModifyCalls(readers, cfg.Class(), replies, i);
        assert rest == [ModifyCall(readers[i], cfg.Class(), answer)] + rest[1..];
        assert calls + rest == calls + [rest[0]] + rest[1..];
        calls := calls + [ModifyCall(readers[i], cfg.Class(), answer)];
        if !answer {
          return false;
        }
      }
      return true;
    }

    method RecoverWriter(op: ActionExecution, reply: Aurora.ClusterReply)
      modifies this, op`writer
      ensures op.Current() == Rediscover(cfg, old(op.Current()), reply).1
      ensures calls == old(calls) + Rediscover(cfg, old(op.Current()), reply).0
    {
      if op.writer == "" {
        var d := DescribeCluster(reply);
        if d.Described? && d.writer != "" {
          op.writer := d.writer;
        }
      }
    }

    method Initialize(op: ActionExecution, rep: Replies) returns (requeue: Requeue, done: bool, failed: bool)
      requires calls == []
      modifies this, op
      ensures Result(calls, op.Current(), done, failed, requeue) ==
              ScaleProtocol.Initialize(cfg, old(op.Current()), rep)
    {
      var d := DescribeCluster(rep.describe);
      if d.DescribeFailed? || d.writer == "" {
        return NoRequeue, false, true;
      }
      op.writer, op.readers := d.writer, d.readers;
      op.phase := if |d.readers| == 0 then ScalingWriter else ScalingReplicas;
      return AtOnce, false, false;
    }

    method ScaleReplicas(op: ActionExecution, rep: Replies) returns (requeue: Requeue, done: bool, failed: bool)
      requires calls == []
      modifies this, op
      ensures Result(calls, op.Current(), done, failed, requeue) ==
              ScaleProtocol.ScaleReplicas(cfg, old(op.Current()), rep)
    {
      var ok := ModifyReaders(op.readers, rep.modified);
      if !ok {
        return NoRequeue, false, true;
      }
      op.phase := WaitReplicas;
      return After(30 * SECOND), false, false;
    }

    method AwaitReplicas(op: ActionExecution, rep: Replies) returns (requeue: Requeue, done: bool, failed: bool)
      requires calls == []
      modifies this, op
      ensures Result(calls, op.Current(), done, failed, requeue) ==
              ScaleProtocol.AwaitReplicas(cfg, old(op.Current()), rep)
    {
      var v := Aurora.CheckInstancesAvailable(op.readers, cfg.Class(), rep.check);
      calls := calls + [CheckCall(op.readers, cfg.Class(), rep.check)];
      if v.CheckFailed? {
        return NoRequeue, false, true;
      }
      if v.AllAvailable? {
        op.phase := PerformingFailover;
        return AtOnce, false, false;
      }
      return After(MINUTE), false, false;
    }

    method FailOver(op: ActionExecution, rep: Replies) returns (requeue: Requeue, done: bool, failed: bool)
      requires calls == []
      modifies this, op
      ensures Result(calls, op.Current(), done, failed, requeue) ==
              ScaleProtocol.FailOver(old(op.Current()), rep)
    {
      calls := calls + [FailoverCall(rep.failover)];
      if !rep.failover {
        return NoRequeue, false, true;
      }
      op.phase := WaitWriterFailover;
      return After(30 * SECOND), false, false;
    }

    method AwaitFailover(op: ActionExecution, rep: Replies) returns (requeue: Requeue, done: bool, failed: bool)
      requires calls == []
      modifies this, op
      ensures Result(calls, op.Current(), done, failed, requeue) ==
              ScaleProtocol.AwaitFailover(cfg, old(op.Current()), rep)
    {
      RecoverWriter(op, rep.describe);
      var d := DescribeCluster(rep.again);
      if d.DescribeFailed? {
        return NoRequeue, false, true;
      }
      if d.writer != op.writer && d.writer != "" {
        op.phase := ScalingWriter;
        return AtOnce, false, false;
      }
      return After(30 * SECOND), false, false;
    }

    method ScaleWriter(op: ActionExecution, rep: Replies) returns (requeue: Requeue, done: bool, failed: bool)
      requires calls == []
      modifies this, op
      ensures Result(calls, op.Current(), done, failed, requeue) ==
              ScaleProtocol.ScaleWriter(cfg, old(op.Current()), rep)
    {
      RecoverWriter(op, rep.describe);
      if op.writer == "" {
        return NoRequeue, false, true;
      }
      var answer := Answer(rep.modified, 0);
      calls := calls + [ModifyCall(op.writer, cfg.Class(), answer)];
      if !answer {
        return NoRequeue, false, true;
      }
      op.phase := WaitOldWriter;
      return After(30 * SECOND), false, false;
    }

    method AwaitOldWriter(op: ActionExecution, rep: Replies) returns (requeue: Requeue, done: bool, failed: bool)
      requires calls == []
      modifies this, op
      ensures Result(calls, op.Current(), done, failed, requeue) ==
              ScaleProtocol.AwaitOldWriter(cfg, old(op.Current()), rep)
    {
      RecoverWriter(op, rep.describe);
      var v := Aurora.CheckInstancesAvailable([op.writer], cfg.Class(), rep.check);
      calls := calls + [CheckCall([op.writer], cfg.Class(), rep.check)];
      if v.CheckFailed? {
        return NoRequeue, false, true;
      }
      if v.AllAvailable? {
        op.phase := Completed;
        return NoRequeue, true, false;
      }
      return After(MINUTE), false, false;
    }

    method Execute(op: ActionExecution, rep: Replies) returns (requeue: Requeue, done: bool, failed: bool)
      requires calls == []
      modifies this, op
      ensures Result(calls, op.Current(), done, failed, requeue) ==
              ScaleProtocol.Execute(cfg, old(op.Current()), rep)
    {
      if rep.setup == TargetUnavailable {
        return NoRequeue, false, true;
      }
      if rep.setup == Misconfigured || cfg.parameters.None? || cfg.parameters.value == "" {
        return NoRequeue, true, true;
      }
      if op.phase == NoPhase {
        op.phase := Initialization;
      }
      match op.phase {
        case Initialization =>
          requeue, done, failed := Initialize(op, rep);
        case ScalingReplicas =>
          requeue, done, failed := ScaleReplicas(op, rep);
        case WaitReplicas =>
          requeue, done, failed := AwaitReplicas(op, rep);
        case PerformingFailover =>
          requeue, done, failed := FailOver(op, rep);
        case WaitWriterFailover =>
          requeue, done, failed := AwaitFailover(op, rep);
        case ScalingWriter =>
          requeue, done, failed := ScaleWriter(op, rep);
        case WaitOldWriter =>
          requeue, done, failed := AwaitOldWriter(op, rep);
        case Completed =>
          requeue, done, failed := NoRequeue, true, false;
        case _ =>
          requeue, done, failed := NoRequeue, true, true;
      }
    }
  }

  class ActionExecutionReconciler {
    const cfg: Config
    var obj: Object
    var log: seq<Event>

    constructor (cfg: Config)
      ensures this.cfg == cfg && State() == World(Live(Status(NoPhase, "", [])), [])
    {
      this.cfg := cfg;
      obj, log := Live(Status(NoPhase, "", [])), [];
    }

    function State(): World
      reads this
    {
      World(obj, log)
    }

    method FinalizeAndDelete(phase: Phase, outcome: Outcome, answer: StoreReply)
      modifies this
      ensures obj == Deleted(old(obj), answer)
      ensures log == old(log) + [Notified(Body(cfg, phase, outcome)), DeleteCall(answer)]
    {
      log := log + [Notified(NotificationBody(cfg.actionName, cfg.actionType, cfg.target, outcome, phase))];
      log := log + [DeleteCall(answer)];
      if answer == Stored {
        obj := Terminating;
      } else if answer == NotFound {
        obj := Gone;
      }
    }

    method WriteBack(st: Status, answer: StoreReply)
      modifies this
      ensures obj == Written(old(obj), st, answer)
      ensures log == old(log) + [StatusWrite(st, answer)]
    {
      log := log + [StatusWrite(st, answer)];
      if answer == Stored {
        obj := Live(st);
      } else if answer == NotFound {
        obj := Gone;
      }
    }

    /** The handler at work on its own copy of the object. */
    method Handle(st: Status, rep: Replies) returns (r: Result)
      ensures r == Execute(cfg, st, rep)
    {
      var op := new ActionExecution(st);
      var handler := new GenericScaleHandler(cfg);
      var requeue, done, failed := handler.Execute(op, rep);
      r := Result(handler.calls, op.Current(), done, failed, requeue);
    }

    /** The end of a pass, once the handler has returned. */
    method Conclude(r: Result, answer: StoreReply)
      modifies this
      ensures obj == if r.done then Deleted(old(obj), answer) else Written(old(obj), r.status, answer)
      ensures log == old(log) + Ending(cfg, r, answer)
    {
      if r.done {
        FinalizeAndDelete(r.status.phase, if r.failed then Error else Success, answer);
      } else {
        WriteBack(r.status, answer);
      }
    }

    method Reconcile(at: int, fetched: bool, rep: Replies, answer: StoreReply)
      modifies this
      ensures State() == ScaleProtocol.Reconcile(cfg, old(State()), at, fetched, rep, answer)
    {
      if !fetched || !obj.Live? {
        return;
      }
      var timeout := cfg.timeout;
      if timeout <= 0 {
        timeout := 30 * MINUTE;
      }
      if cfg.created.Some? && at - cfg.created.value > timeout {
        FinalizeAndDelete(TimedOut, Timeout, answer);
        return;
      }
      if !cfg.supported {
        return;
      }
      var r := Handle(obj.status, rep);
      log := log + r.calls;
      Conclude(r, answer);
    }
  }
}
