/** The recipient index of the notification service and the policies that feed it. */
module NotificationIndex {
  import opened Base

  datatype Kind = Api | MSTeams | Slack | Other(name: string)

  datatype Recipient = Recipient(kind: Kind, config: string)

  type Recipients = map<string, map<string, Recipient>>

  type Gauge = map<(Kind, string), int>

  /** The recipient registered under a schedule with an id. */
  function At(rs: Recipients, schedule: string, id: string): Option<Recipient> {
    if schedule in rs && id in rs[schedule] then Some(rs[schedule][id]) else None
  }

  function GaugeAt(g: Gauge, kind: Kind, schedule: string): int {
    if (kind, schedule) in g then g[(kind, schedule)] else 0
  }

  function Bump(g: Gauge, kind: Kind, schedule: string, delta: int): (g': Gauge)
    ensures forall k, s :: GaugeAt(g', k, s) == GaugeAt(g, k, s) + if (k, s) == (kind, schedule) then delta else 0
  {
    g[(kind, schedule) := GaugeAt(g, kind, schedule) + delta]
  }

  const CAPACITY: nat := 256

  datatype Body = Body(schedule: string, action: string, resource: string, status: string)

  /** The channel after a non-blocking send: a stopped service or a full channel drops the body. */
  function Sent(queue: seq<Body>, closed: bool, body: Body): seq<Body> {
    if closed || |queue| >= CAPACITY then queue else queue + [body]
  }

  function RecipientsOf(rs: Recipients, schedule: string): (found: map<string, Recipient>)
    ensures forall id :: id in found <==> At(rs, schedule, id).Some?
    ensures forall id :: id in found ==> At(rs, schedule, id) == Some(found[id])
  {
    if schedule in rs then rs[schedule] else map[]
  }

  /** A notification policy: the configuration of each kind may be missing. */
  datatype Policy = Policy(name: string, active: bool, schedules: seq<string>, kind: Kind,
                           api: Option<string>, msteams: Option<string>, slack: Option<string>)
  {
    /** The configuration that the policy's kind needs. */
    function Config(): Option<string> {
      match kind
      case Api => api
      case MSTeams => msteams
      case Slack => slack
      case Other(_) => None
    }

    predicate Accepted() {
      active && Config().Some?
    }

    /** What the policy registers under a schedule. */
    function Offers(schedule: string): Option<Recipient> {
      if Accepted() && schedule in schedules then Some(Recipient(kind, Config().value)) else None
    }
  }

  datatype Reason = Disabled | InvalidNotificationConfig | NotSupportedNotificationType | Active

  /** The policy is active, lists the schedule and has the configuration that its kind needs, and the recipient is
      of that kind with that configuration. */
  ghost predicate Grants(p: Policy, schedule: string, r: Recipient) {
    && p.active && schedule in p.schedules && r.kind == p.kind
    && (|| (p.kind == Api && p.api == Some(r.config))
        || (p.kind == MSTeams && p.msteams == Some(r.config))
        || (p.kind == Slack && p.slack == Some(r.config)))
  }

  lemma OffersIff(p: Policy, schedule: string, r: Recipient)
    ensures p.Offers(schedule) == Some(r) <==> Grants(p, schedule, r)
  {
  }

  function Occurrences(s: seq<string>, x: string): nat {
    multiset(s)[x]
  }

  ghost function Holds(r: Option<Recipient>, kind: Kind): nat {
    if r.Some? && r.value.kind == kind then 1 else 0
  }

  /** The index as a value, and what happens to policies. */
  datatype Index = Index(recipients: Recipients, gauge: Gauge)

  datatype Change = Applied(policy: Policy) | Deleted(id: string)
  {
    function Name(): string {
      if Applied? then policy.name else id
    }

    /** What is registered under a schedule for the policy after the change. */
    function Leaves(schedule: string): Option<Recipient> {
      if Applied? then policy.Offers(schedule) else None
    }

    /** By how much the change raises a gauge value after its removals. */
    function Raises(kind: Kind, schedule: string): nat {
      if Applied? && policy.Accepted() && kind == policy.kind then Occurrences(policy.schedules, schedule) else 0
    }
  }

  /** One change: the policy's recipients are replaced, all others stay. */
  ghost predicate Steps(before: Index, c: Change, after: Index) {
    && (forall s, i :: At(after.recipients, s, i) == if i == c.Name() then c.Leaves(s) else At(before.recipients, s, i))
    && (forall k, s :: GaugeAt(after.gauge, k, s) ==
          GaugeAt(before.gauge, k, s) - Holds(At(before.recipients, s, c.Name()), k) + c.Raises(k, s))
  }

  lemma AtWithout(rs: Recipients, schedule: string, id: string)
    requires schedule in rs
    ensures forall s, i :: At(rs[schedule := rs[schedule] - {id}], s, i) ==
              if (s, i) == (schedule, id) then None else At(rs, s, i)
  {
  }

  lemma Offering(offered: seq<string>, done: set<string>, id: string)
    requires multiset(offered) == multiset(done) && id !in done
    ensures multiset(offered + [id]) == multiset(done + {id})
  {
    assert multiset(done + {id}) == multiset(done) + multiset{id};
  }

  class NotificationService {
    var recipients: Recipients
    var gauge: Gauge
    var queue: seq<Body>
    var closed: bool

    ghost function Value(): Index
      reads this
    {
      Index(recipients, gauge)
    }

    constructor ()
      ensures Value() == Index(map[], map[]) && queue == [] && !closed
    {
      recipients, gauge, queue, closed := map[], map[], [], false;
    }

    method Send(body: Body)
      modifies this`queue
      ensures queue == Sent(old(queue), closed, body)
      ensures queue == if closed || |old(queue)| >= 256 then old(queue) else old(queue) + [body]
    {
      if closed {
        return;
      }
      if |queue| < CAPACITY {
        queue := queue + [body];
      }
    }

    /** What a worker does with a body: every recipient of the schedule is notified once, in any order, and
        a failing one (a member of `failing`) does not keep the others from their turn. */
    method Deliver(body: Body, failing: set<string>) returns (offered: seq<string>, failed: set<string>)
      ensures multiset(offered) == multiset(RecipientsOf(recipients, body.schedule).Keys)
      ensures failed == failing * RecipientsOf(recipients, body.schedule).Keys
    {
      offered, failed := [], {};
      var copy := RecipientsOf(recipients, body.schedule);
      var todo := copy.Keys;
      ghost var done: set<string> := {};
      while todo != {}
        invariant done !! todo && done + todo == copy.Keys
        invariant multiset(offered) == multiset(done)
        invariant failed == failing * done
        decreases todo
      {
        var id :| id in todo;
        Offering(offered, done, id);
        offered := offered + [id];
        if id in failing {
          failed := failed + {id};
        }
        done := done + {id};
        todo := todo - {id};
      }
    }

    method RemoveRecipient(id: string)
      modifies this`recipients, this`gauge
      ensures Steps(old(Value()), Deleted(id), Value())
    {
      var todo := recipients.Keys;
      while todo != {}
        invariant todo <= recipients.Keys
        invariant recipients.Keys == old(recipients).Keys
        invariant forall s, i :: At(recipients, s, i) ==
                    if i == id && s !in todo then None else old(At(recipients, s, i))
        invariant forall k, s :: GaugeAt(gauge, k, s) ==
                    old(GaugeAt(gauge, k, s)) - if s in todo then 0 else Holds(old(At(recipients, s, id)), k)
        decreases todo
      {
        var schedule :| schedule in todo;
        ghost var before := recipients;
        assert At(before, schedule, id) == old(At(recipients, schedule, id));
        if id in recipients[schedule] {
          gauge := Bump(gauge, recipients[schedule][id].kind, schedule, -1);
          AtWithout(recipients, schedule, id);
          recipients := recipients[schedule := recipients[schedule] - {id}];
        }
        forall s, i ensures At(recipients, s, i) == if (s, i) == (schedule, id) then None else At(before, s, i) {}
        todo := todo - {schedule};
      }
    }

    method AddRecipientToSchedule(schedule: string, id: string, r: Recipient)
      modifies this`recipients, this`gauge
      ensures forall s, i :: At(recipients, s, i) ==
                if (s, i) == (schedule, id) then Some(r) else old(At(recipients, s, i))
      ensures forall k, s :: GaugeAt(gauge, k, s) ==
                old(GaugeAt(gauge, k, s)) + if (k, s) == (r.kind, schedule) then 1 else 0
    {
      var ids: map<string, Recipient> := if schedule in recipients then recipients[schedule] else map[];
      recipients := recipients[schedule := ids[id := r]];
      gauge := Bump(gauge, r.kind, schedule, 1);
    }

    /** One pass over a policy: its recipients are removed everywhere and added again. */
    method Reconcile(p: Policy) returns (reason: Reason)
      modifies this`recipients, this`gauge
      ensures Steps(old(Value()), Applied(p), Value())
      ensures reason == Active <==> p.Accepted()
      ensures reason == Active <==>
              p.active && match p.kind
                          case Api => p.api.Some?
                          case MSTeams => p.msteams.Some?
                          case Slack => p.slack.Some?
                          case Other(_) => false
      ensures reason == Disabled <==> !p.active
      ensures reason == NotSupportedNotificationType <==> p.active && p.kind.Other?
    {
      RemoveRecipient(p.name);
      if !p.active {
        return Disabled;
      }
      var r: Recipient;
      match p.kind {
        case Api =>
          if p.api.None? {
            return InvalidNotificationConfig;
          }
          r := Recipient(Api, p.api.value);
        case MSTeams =>
          if p.msteams.None? {
            return InvalidNotificationConfig;
          }
          r := Recipient(MSTeams, p.msteams.value);
        case Slack =>
          if p.slack.None? {
            return InvalidNotificationConfig;
          }
          r := Recipient(Slack, p.slack.value);
        case Other(_) =>
          return NotSupportedNotificationType;
      }
      Register(p.name, p.schedules, r);
      return Active;
    }

    /** The loop over the policy's schedules. */
    method Register(id: string, schedules: seq<string>, r: Recipient)
      modifies this`recipients, this`gauge
      ensures forall s, i :: At(recipients, s, i) ==
                if i == id && s in schedules then Some(r) else old(At(recipients, s, i))
      ensures forall k, s :: GaugeAt(gauge, k, s) ==
                old(GaugeAt(gauge, k, s)) + if k == r.kind then Occurrences(schedules, s) else 0
    {
      assert schedules[..0] == [] && forall s :: Occurrences(schedules[..0], s) == 0;
      for n := 0 to |schedules|
        invariant forall s, i :: At(recipients, s, i) ==
                    if i == id && s in schedules[..n] then Some(r) else old(At(recipients, s, i))
        invariant forall k, s :: GaugeAt(gauge, k, s) ==
                    old(GaugeAt(gauge, k, s)) + if k == r.kind then Occurrences(schedules[..n], s) else 0
      {
        assert schedules[..n + 1] == schedules[..n] + [schedules[n]];
        AddRecipientToSchedule(schedules[n], id, r);
      }
      assert schedules[..|schedules|] == schedules;
    }
  }

  // ---------------------------------------------------------------- any sequence of changes

  ghost predicate Run(states: seq<Index>, changes: seq<Change>) {
    && |states| == |changes| + 1
    && states[0] == Index(map[], map[])
    && forall n :: 0 <= n < |changes| ==> Steps(states[n], changes[n], states[n + 1])
  }

  /** What the latest change to a policy leaves under a schedule. */
  function Latest(changes: seq<Change>, schedule: string, id: string): Option<Recipient> {
    if changes == [] then None
    else if changes[|changes| - 1].Name() == id then changes[|changes| - 1].Leaves(schedule)
    else Latest(changes[..|changes| - 1], schedule, id)
  }

  lemma RunInit(states: seq<Index>, changes: seq<Change>)
    requires Run(states, changes) && changes != []
    ensures Run(states[..|changes|], changes[..|changes| - 1])
    ensures Steps(states[|changes| - 1], changes[|changes| - 1], states[|changes|])
  {
    forall n | 0 <= n < |changes| - 1
      ensures Steps(states[..|changes|][n], changes[..|changes| - 1][n], states[..|changes|][n + 1])
    {
      assert Steps(states[n], changes[n], states[n + 1]);
    }
    var last := |changes| - 1;
    assert Steps(states[last], changes[last], states[last + 1]);
  }

  /** After any sequence of policy passes and deletions, an id is registered under a schedule exactly as its
      latest policy says: when it is active, has the configuration its kind needs and lists the schedule. */
  lemma {:induction false} LatestDecides(states: seq<Index>, changes: seq<Change>, schedule: string, id: string)
    requires Run(states, changes)
    ensures At(states[|changes|].recipients, schedule, id) == Latest(changes, schedule, id)
  {
    if changes != [] {
      RunInit(states, changes);
      LatestDecides(states[..|changes|], changes[..|changes| - 1], schedule, id);
    }
  }

  /** The change is about the policy of this name. */
  ghost predicate Concerns(c: Change, id: string) {
    match c
    case Applied(policy) => policy.name == id
    case Deleted(deleted) => deleted == id
  }

  /** The `n`-th change is the last one about the policy. */
  ghost predicate IsLatest(changes: seq<Change>, id: string, n: int) {
    0 <= n < |changes| && Concerns(changes[n], id) && forall m :: n < m < |changes| ==> !Concerns(changes[m], id)
  }

  lemma {:induction false} LatestIs(changes: seq<Change>, schedule: string, id: string, r: Recipient)
    ensures Latest(changes, schedule, id) == Some(r) <==>
            exists n :: IsLatest(changes, id, n) && changes[n].Applied? && Grants(changes[n].policy, schedule, r)
  {
    if changes != [] {
      var init, last := changes[..|changes| - 1], |changes| - 1;
      LatestIs(init, schedule, id, r);
      if Concerns(changes[last], id) {
        assert IsLatest(changes, id, last);
        if changes[last].Applied? {
          OffersIff(changes[last].policy, schedule, r);
        }
      } else {
        forall n ensures IsLatest(changes, id, n) <==> IsLatest(init, id, n) {
          assert n == last ==> !IsLatest(changes, id, n);
        }
      }
    }
  }

  /** After any sequence of policy passes and deletions: a recipient is registered under a schedule exactly when the
      last change about its policy was a pass over an active policy that lists the schedule, has the configuration
      its kind needs, and made this recipient of it. */
  lemma RegisteredIff(states: seq<Index>, changes: seq<Change>, schedule: string, id: string, r: Recipient)
    requires Run(states, changes)
    ensures At(states[|changes|].recipients, schedule, id) == Some(r) <==>
            exists n :: IsLatest(changes, id, n) && changes[n].Applied? && Grants(changes[n].policy, schedule, r)
  {
    LatestDecides(states, changes, schedule, id);
    LatestIs(changes, schedule, id, r);
  }

  /** The ids of one kind under one schedule. */
  ghost function Registered(rs: Recipients, kind: Kind, schedule: string): set<string> {
    if schedule in rs then set id | id in rs[schedule] && rs[schedule][id].kind == kind else {}
  }

  lemma RegisteredMoves(rs: Recipients, rs': Recipients, name: string, kind: Kind, schedule: string)
    requires forall i :: i != name ==> At(rs, schedule, i) == At(rs', schedule, i)
    ensures |Registered(rs', kind, schedule)| + Holds(At(rs, schedule, name), kind) ==
            |Registered(rs, kind, schedule)| + Holds(At(rs', schedule, name), kind)
  {
    var a, b := Registered(rs, kind, schedule), Registered(rs', kind, schedule);
    forall i ensures i in a <==> Holds(At(rs, schedule, i), kind) == 1 {}
    forall i ensures i in b <==> Holds(At(rs', schedule, i), kind) == 1 {}
    forall i | i != name ensures i in a <==> i in b {
      assert At(rs, schedule, i) == At(rs', schedule, i);
    }
    assert a - {name} == b - {name};
    assert |a| == |a - {name}| + if name in a then 1 else 0;
    assert |b| == |b - {name}| + if name in b then 1 else 0;
  }

  /** How often the passes so far listed the schedule once too many for a recipient of the kind. */
  function Excess(changes: seq<Change>, kind: Kind, schedule: string): nat {
    if changes == [] then 0
    else
      var n := changes[|changes| - 1].Raises(kind, schedule);
      Excess(changes[..|changes| - 1], kind, schedule) + if n > 1 then n - 1 else 0
  }

  /** The gauge drifts: each value is the number of recipients it stands for plus every repetition of the
      schedule in a list that some pass has ever applied. */
  lemma {:induction false} GaugeDrift(states: seq<Index>, changes: seq<Change>, kind: Kind, schedule: string)
    requires Run(states, changes)
    ensures GaugeAt(states[|changes|].gauge, kind, schedule) ==
            |Registered(states[|changes|].recipients, kind, schedule)| + Excess(changes, kind, schedule)
  {
    if changes != [] {
      RunInit(states, changes);
      GaugeDrift(states[..|changes|], changes[..|changes| - 1], kind, schedule);
      var before, c, after := states[|changes| - 1], changes[|changes| - 1], states[|changes|];
      RegisteredMoves(before.recipients, after.recipients, c.Name(), kind, schedule);
      assert c.Raises(kind, schedule) > 0 <==> Holds(c.Leaves(schedule), kind) == 1;
    }
  }

  /** So a gauge value is right if and only if no pass for its kind ever listed its schedule twice. */
  lemma {:induction false} GaugeExactIff(states: seq<Index>, changes: seq<Change>, kind: Kind, schedule: string)
    requires Run(states, changes)
    ensures GaugeAt(states[|changes|].gauge, kind, schedule) ==
            |Registered(states[|changes|].recipients, kind, schedule)|
            <==> forall c :: c in changes ==> c.Raises(kind, schedule) <= 1
  {
    GaugeDrift(states, changes, kind, schedule);
    NoExcess(changes, kind, schedule);
  }

  /** Which changes raise a gauge value more than once: a pass over a policy that grants a recipient of the kind under
      the schedule and lists the schedule more than once. */
  lemma RaisesTwiceIff(c: Change, kind: Kind, schedule: string)
    ensures c.Raises(kind, schedule) > 1 <==>
            && c.Applied? && multiset(c.policy.schedules)[schedule] > 1
            && exists r :: Grants(c.policy, schedule, r) && r.kind == kind
  {
    if c.Applied? && c.policy.Config().Some? {
      OffersIff(c.policy, schedule, Recipient(c.policy.kind, c.policy.Config().value));
    }
    if c.Applied? {
      forall r ensures Grants(c.policy, schedule, r) <==> c.policy.Offers(schedule) == Some(r) {
        OffersIff(c.policy, schedule, r);
      }
    }
  }

  lemma {:induction false} NoExcess(changes: seq<Change>, kind: Kind, schedule: string)
    ensures Excess(changes, kind, schedule) == 0 <==> forall c :: c in changes ==> c.Raises(kind, schedule) <= 1
  {
    if changes != [] {
      NoExcess(changes[..|changes| - 1], kind, schedule);
      assert changes == changes[..|changes| - 1] + [changes[|changes| - 1]];
    }
  }

  /** A policy that lists a schedule twice registers one recipient there and counts two. */
  method ListedTwice() returns (svc: NotificationService)
    ensures GaugeAt(svc.gauge, Slack, "nightly") == 2
    ensures Registered(svc.recipients, Slack, "nightly") == {"ops"}
  {
    svc := new NotificationService();
    ghost var start := svc.Value();
    var p := Policy("ops", true, ["nightly", "nightly"], Slack, None, None, Some("hook"));
    var _ := svc.Reconcile(p);
    assert p.schedules == ["nightly"] + ["nightly"];
    assert GaugeAt(start.gauge, Slack, "nightly") == 0 && At(start.recipients, "nightly", "ops") == None;
    forall i ensures i in Registered(svc.recipients, Slack, "nightly") <==> i == "ops" {
      assert At(svc.recipients, "nightly", i) == if i == "ops" then p.Offers("nightly") else None;
    }
  }
}
