/** Whom the notifications of a scaling execution reach. */
module ScaleNotices {
  import opened ScaleProtocol
  import opened ScaleRuns
  import opened ScaleSafety
  import CronRegistry
  import NotificationIndex

  /** The execution that a scaling job creates when the cron entry under a key fires. */
  function Launched(k: CronRegistry.Key, cfg: Config): Config {
    cfg.(actionName := k.action)
  }

  lemma PassNames(cfg: Config, st: Status, s: Step, e: Event)
    requires Shape(st) && (s.Pass? || s.Crash?)
    requires e in PassEvents(cfg, st, s.at, s.rep, s.answer) && e.Notified?
    ensures e.body.schedule == cfg.actionName
  {
    if e in Execute(cfg, st, s.rep).calls {
      CallsArePlain(cfg, st, s.rep, e);
    }
  }

  /** In every run each notification carries the action's name where a schedule's is expected. */
  lemma {:induction false} NoticesNameAction(cfg: Config, steps: seq<Step>, e: Event)
    requires e in Run(cfg, steps).log && e.Notified?
    ensures e.body.schedule == cfg.actionName
  {
    var init, s := steps[..|steps| - 1], steps[|steps| - 1];
    var w := Run(cfg, init);
    assert Run(cfg, steps).log == w.log + Added(cfg, w, s);
    if e in w.log {
      NoticesNameAction(cfg, init, e);
    } else {
      RunGood(cfg, init);
      PassNames(cfg, w.obj.status, s, e);
    }
  }

  /** One recipient, registered under the schedule only. */
  function OnlyUnder(schedule: string, r: NotificationIndex.Recipient): NotificationIndex.Recipients {
    map[schedule := map["ops" := r]]
  }

  /** Whatever recipients are registered, a notification of the execution reaches those of the schedule that
      launched it, if and only if the schedule and the action have the same name. */
  lemma NoticeReachesIff(k: CronRegistry.Key, base: Config, steps: seq<Step>, e: Event)
    requires e in Run(Launched(k, base), steps).log && e.Notified?
    ensures (forall rs :: NotificationIndex.RecipientsOf(rs, e.body.schedule) ==
                          NotificationIndex.RecipientsOf(rs, k.schedule)) <==>
            k.action == k.schedule
  {
    NoticesNameAction(Launched(k, base), steps, e);
    var r := NotificationIndex.Recipient(NotificationIndex.Slack, "hook");
    assert "ops" in NotificationIndex.RecipientsOf(OnlyUnder(k.schedule, r), k.schedule);
    assert k.action != k.schedule ==> NotificationIndex.RecipientsOf(OnlyUnder(k.schedule, r), k.action) == map[];
  }

  /** The recipients of the schedule "nightly" do not hear of the scaling that its action "scale-up" launched. */
  lemma NoticeMissesSchedule(base: Config, steps: seq<Step>, e: Event, r: NotificationIndex.Recipient)
    requires e in Run(Launched(CronRegistry.Key("nightly", "scale-up", "db"), base), steps).log && e.Notified?
    ensures NotificationIndex.RecipientsOf(OnlyUnder("nightly", r), "nightly") == map["ops" := r]
    ensures NotificationIndex.RecipientsOf(OnlyUnder("nightly", r), e.body.schedule) == map[]
  {
    NoticesNameAction(Launched(CronRegistry.Key("nightly", "scale-up", "db"), base), steps, e);
  }
}
