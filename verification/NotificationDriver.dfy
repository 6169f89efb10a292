/** The service object and the concurrent system against each other: index changes alone, and whole runs. */
module NotificationDriver {
  import opened Base
  import NotificationIndex
  import opened NotificationQueue

  type Recipients = NotificationIndex.Recipients

  /** `after` is `before` with one registration set. */
  ghost predicate Set(before: Recipients, schedule: string, id: string, r: NotificationIndex.Recipient,
                      after: Recipients) {
    forall s, i :: NotificationIndex.At(after, s, i) ==
                   if (s, i) == (schedule, id) then Some(r) else NotificationIndex.At(before, s, i)
  }

  /** `after` is `before` with what is registered for an id replaced. */
  ghost predicate Replaced(before: Recipients, id: string, what: string -> Option<NotificationIndex.Recipient>,
                           after: Recipients) {
    forall s, i :: NotificationIndex.At(after, s, i) == if i == id then what(s) else NotificationIndex.At(before, s, i)
  }

  /** A step that gets the lock does to the index what the service's `AddRecipientToSchedule` does. */
  lemma AddAlone(st: State, schedule: string, id: string, r: NotificationIndex.Recipient)
    requires st.senders == map[]
    ensures Set(st.recipients, schedule, id, r, Apply(st, Step.Add(schedule, id, r)).recipients)
    ensures Apply(st, Step.Add(schedule, id, r)).senders == map[]
  {
  }

  /** A step that gets the lock does to the index what the service's `RemoveRecipient` does. */
  lemma RemoveAlone(st: State, id: string)
    requires st.senders == map[]
    ensures Replaced(st.recipients, id, _ => None, Apply(st, Step.Remove(id)).recipients)
    ensures Apply(st, Step.Remove(id)).senders == map[]
  {
  }

  /** The service's two operations, on the object, in the same words. */
  method AddOnObject(svc: NotificationIndex.NotificationService, schedule: string, id: string,
                     r: NotificationIndex.Recipient)
    modifies svc`recipients, svc`gauge
    ensures Set(old(svc.recipients), schedule, id, r, svc.recipients)
  {
    svc.AddRecipientToSchedule(schedule, id, r);
  }

  method RemoveOnObject(svc: NotificationIndex.NotificationService, id: string)
    modifies svc`recipients, svc`gauge
    ensures Replaced(old(svc.recipients), id, _ => None, svc.recipients)
  {
    ghost var before := svc.Value();
    svc.RemoveRecipient(id);
    assert NotificationIndex.Steps(before, NotificationIndex.Deleted(id), svc.Value());
  }

  // ---------------------------------------------------------------- a policy pass as steps

  /** The steps one after the other, with nothing in between. */
  function ApplyAll(st: State, steps: seq<Step>): State
    decreases |steps|
  {
    if steps == [] then st else ApplyAll(Apply(st, steps[0]), steps[1..])
  }

  function Additions(id: string, schedules: seq<string>, r: NotificationIndex.Recipient): seq<Step> {
    if schedules == [] then [] else [Step.Add(schedules[0], id, r)] + Additions(id, schedules[1..], r)
  }

  /** The locked calls of one pass over a policy. */
  function PassSteps(p: NotificationIndex.Policy): seq<Step> {
    [Step.Remove(p.name)] +
    if p.Accepted() then Additions(p.name, p.schedules, NotificationIndex.Recipient(p.kind, p.Config().value)) else []
  }

  lemma {:induction false} AdditionsAlone(st: State, id: string, schedules: seq<string>, r: NotificationIndex.Recipient)
    requires st.senders == map[]
    ensures forall s, i :: NotificationIndex.At(ApplyAll(st, Additions(id, schedules, r)).recipients, s, i) ==
              if i == id && s in schedules then Some(r) else NotificationIndex.At(st.recipients, s, i)
    decreases |schedules|
  {
    if schedules != [] {
      var st' := Apply(st, Step.Add(schedules[0], id, r));
      AddAlone(st, schedules[0], id, r);
      AdditionsAlone(st', id, schedules[1..], r);
      AllAfter(st, Step.Add(schedules[0], id, r), Additions(id, schedules[1..], r));
      assert schedules == [schedules[0]] + schedules[1..];
    }
  }

  lemma AllAfter(st: State, s: Step, more: seq<Step>)
    ensures ApplyAll(st, [s] + more) == ApplyAll(Apply(st, s), more)
  {
    assert ([s] + more)[1..] == more;
  }

  /** A policy pass that nothing interrupts leaves in the index exactly what the policy offers under its name. */
  lemma PassAlone(st: State, p: NotificationIndex.Policy)
    requires st.senders == map[]
    ensures Replaced(st.recipients, p.name, s => p.Offers(s), ApplyAll(st, PassSteps(p)).recipients)
  {
    var st' := Apply(st, Step.Remove(p.name));
    RemoveAlone(st, p.name);
    if p.Accepted() {
      var r := NotificationIndex.Recipient(p.kind, p.Config().value);
      AllAfter(st, Step.Remove(p.name), Additions(p.name, p.schedules, r));
      AdditionsAlone(st', p.name, p.schedules, r);
    } else {
      AllAfter(st, Step.Remove(p.name), []);
    }
  }

  // ---------------------------------------------------------------- the object through any changes

  /** The service object taken through any policy passes and deletions: its states are a run of the index. */
  method Drive(changes: seq<NotificationIndex.Change>)
    returns (svc: NotificationIndex.NotificationService, ghost states: seq<NotificationIndex.Index>)
    ensures fresh(svc) && NotificationIndex.Run(states, changes) && svc.Value() == states[|changes|]
    ensures forall s, i :: NotificationIndex.At(svc.recipients, s, i) == NotificationIndex.Latest(changes, s, i)
  {
    svc := new NotificationIndex.NotificationService();
    states := [svc.Value()];
    for n := 0 to |changes|
      invariant fresh(svc) && |states| == n + 1 && svc.Value() == states[n]
      invariant NotificationIndex.Run(states, changes[..n])
    {
      ghost var before := states;
      if changes[n].Applied? {
        var _ := svc.Reconcile(changes[n].policy);
      } else {
        svc.RemoveRecipient(changes[n].id);
      }
      states := states + [svc.Value()];
      RunNext(before, changes, n, svc.Value());
    }
    assert changes[..|changes|] == changes;
    forall s, i ensures NotificationIndex.At(svc.recipients, s, i) == NotificationIndex.Latest(changes, s, i) {
      NotificationIndex.LatestDecides(states, changes, s, i);
    }
  }

  lemma RunNext(states: seq<NotificationIndex.Index>, changes: seq<NotificationIndex.Change>, n: nat,
                next: NotificationIndex.Index)
    requires n < |changes| && NotificationIndex.Run(states, changes[..n])
    requires NotificationIndex.Steps(states[n], changes[n], next)
    ensures NotificationIndex.Run(states + [next], changes[..n + 1])
  {
    var all := states + [next];
    forall i | 0 <= i < n + 1 ensures NotificationIndex.Steps(all[i], changes[..n + 1][i], all[i + 1]) {
      if i < n {
        assert NotificationIndex.Steps(states[i], changes[..n][i], states[i + 1]);
      }
    }
  }
}
