/** What a cron job does when it fires: run the action, or skip it because of the schedule's periods. */
module PeriodGate {
  import opened Base
  import opened ResourcePass

  /** One minute, in the unit of the clock (nanoseconds). */
  const MINUTE: int := 60_000_000_000

  datatype Firing = FetchFailed | Skipped | Ran

  /** Wall time cut down to the minute. */
  function Truncate(t: int): (now: int)
    ensures now <= t < now + MINUTE && now % MINUTE == 0
  {
    t - t % MINUTE
  }

  /** The source's test on a period, both ends included. */
  predicate Covers(p: Period, now: int) {
    (now > p.start && now < p.end) || now == p.start || now == p.end
  }

  predicate Applies(p: Period, now: int, action: string) {
    Covers(p, now) && (p.actions == [] || action in p.actions)
  }

  predicate Enabled(s: ScheduleSpec, action: string) {
    s.active && action in s.actions && s.actions[action].active
  }

  /** The job runs when schedule and action are enabled, some active period applies unless there are none,
      and no inactive period applies. */
  predicate Runs(s: ScheduleSpec, action: string, t: int) {
    && Enabled(s, action)
    && (s.activePeriods == [] || exists p :: p in s.activePeriods && Applies(p, Truncate(t), action))
    && !(exists p :: p in s.inactivePeriods && Applies(p, Truncate(t), action))
  }

  /** The period takes in the moment, one of its ends included, and lists the action or none at all. */
  ghost predicate Concerns(p: Period, now: int, action: string) {
    && (p.start <= now <= p.end || now == p.start || now == p.end)
    && (|p.actions| == 0 || exists j :: 0 <= j < |p.actions| && p.actions[j] == action)
  }

  /** The loop with its flag and breaks: does some period apply? */
  method SomeApplies(periods: seq<Period>, now: int, action: string) returns (found: bool)
    ensures found <==> exists p :: p in periods && Applies(p, now, action)
    ensures found <==> exists i :: 0 <= i < |periods| && Concerns(periods[i], now, action)
  {
    found := false;
    for i := 0 to |periods|
      invariant !found
      invariant forall j :: 0 <= j < i ==> !Applies(periods[j], now, action) && !Concerns(periods[j], now, action)
    {
      var p := periods[i];
      if (now > p.start && now < p.end) || now == p.start || now == p.end {
        if |p.actions| > 0 {
          for j := 0 to |p.actions|
            invariant !found && action !in p.actions[..j]
          {
            if p.actions[j] == action {
              found := true;
              break;
            }
          }
          assert !found ==> p.actions[..|p.actions|] == p.actions;
        } else {
          found := true;
        }
        if found {
          assert p in periods && Applies(p, now, action) && Concerns(periods[i], now, action);
          break;
        }
      }
    }
  }

  /** Schedule and action are enabled, one of the active periods concerns the action now unless there are none,
      and no inactive one does. */
  ghost predicate MayRun(s: ScheduleSpec, action: string, now: int) {
    && s.active && action in s.actions && s.actions[action].active
    && (|s.activePeriods| > 0 ==>
          exists i :: 0 <= i < |s.activePeriods| && Concerns(s.activePeriods[i], now, action))
    && forall i :: 0 <= i < |s.inactivePeriods| ==> !Concerns(s.inactivePeriods[i], now, action)
  }

  lemma ConcernsIff(p: Period, now: int, action: string)
    ensures Concerns(p, now, action) <==> Applies(p, now, action)
  {
  }

  /** The job runs at a wall time if and only if it may run in that minute. */
  lemma RunsIff(s: ScheduleSpec, action: string, t: int)
    ensures Runs(s, action, t) <==> MayRun(s, action, t - t % 60_000_000_000)
  {
    var now := Truncate(t);
    forall p ensures Concerns(p, now, action) <==> Applies(p, now, action) {
      ConcernsIff(p, now, action);
    }
    forall i | 0 <= i < |s.activePeriods| ensures s.activePeriods[i] in s.activePeriods {}
    forall i | 0 <= i < |s.inactivePeriods| ensures s.inactivePeriods[i] in s.inactivePeriods {}
  }

  /** The closure: `fetched` is the schedule as it is when the job fires. */
  method Fire(fetched: Option<ScheduleSpec>, action: string, start: int) returns (f: Firing)
    ensures f == FetchFailed <==> fetched.None?
    ensures f == Ran <==> fetched.Some? && Runs(fetched.value, action, start)
    ensures f == Ran <==> fetched.Some? && MayRun(fetched.value, action, start - start % 60_000_000_000)
  {
    if fetched.None? {
      return FetchFailed;
    }
    var s := fetched.value;
    RunsIff(s, action, start);
    if !s.active {
      return Skipped;
    }
    if action !in s.actions || !s.actions[action].active {
      return Skipped;
    }
    var now := Truncate(start);
    if |s.activePeriods| > 0 {
      var active := SomeApplies(s.activePeriods, now, action);
      if !active {
        return Skipped;
      }
    }
    if |s.inactivePeriods| > 0 {
      var inactive := SomeApplies(s.inactivePeriods, now, action);
      if inactive {
        return Skipped;
      }
    }
    return Ran;
  }

  /** The first whole minute from a time on. */
  function RoundUp(t: int): (m: int)
    ensures t <= m < t + MINUTE && m % MINUTE == 0
  {
    Truncate(t + MINUTE - 1)
  }

  /** A period covers wall time from the first whole minute of its span to the end of the last minute it
      reaches into; a period that ends before it starts covers just the minutes its two ends name exactly. */
  lemma CoversWhen(p: Period, t: int)
    ensures p.start <= p.end ==> (Covers(p, Truncate(t)) <==> RoundUp(p.start) <= t < Truncate(p.end) + MINUTE)
    ensures p.start > p.end ==>
              (Covers(p, Truncate(t)) <==>
               || (p.start % MINUTE == 0 && p.start <= t < p.start + MINUTE)
               || (p.end % MINUTE == 0 && p.end <= t < p.end + MINUTE))
    ensures p.start % MINUTE == 0 && p.end % MINUTE == 0 && p.start <= p.end ==>
              (Covers(p, Truncate(t)) <==> p.start <= t < p.end + MINUTE)
  {
    TruncatedOrder(p.start, t);
    TruncatedOrder(t, p.end);
    TruncatedOrder(p.end, t);
    TruncatedOrder(p.start, p.start);
    TruncatedOrder(p.end, p.end);
  }

  /** Rounding either side of a comparison with a whole minute. */
  lemma TruncatedOrder(a: int, b: int)
    ensures a <= Truncate(b) <==> RoundUp(a) <= b
    ensures Truncate(a) <= b <==> a < Truncate(b) + MINUTE
    ensures a == Truncate(b) <==> a % MINUTE == 0 && a <= b < a + MINUTE
  {
    AlignedOrder(RoundUp(a), Truncate(b));
    AlignedOrder(Truncate(b), RoundUp(a));
    AlignedOrder(Truncate(a), Truncate(b));
    AlignedOrder(Truncate(b), Truncate(a));
    if a % MINUTE == 0 {
      AlignedOrder(a, Truncate(b));
      AlignedOrder(Truncate(b), a);
    }
  }

  /** A firing inside a period is covered if and only if its minute began inside the period too. */
  lemma InsideCovered(p: Period, t: int)
    requires p.start <= t <= p.end
    ensures Covers(p, Truncate(t)) <==> p.start <= Truncate(t)
  {
  }

  /** A job that fires 45 seconds into a minute misses a period that began 15 seconds before. */
  lemma MissedInside(p: Period)
    requires p.start == MINUTE / 2 && p.end == 10 * MINUTE
    ensures p.start <= 3 * MINUTE / 4 <= p.end && !Covers(p, Truncate(3 * MINUTE / 4))
  {
  }

  lemma AlignedOrder(a: int, b: int)
    requires a % MINUTE == 0 && b % MINUTE == 0
    ensures a < b ==> a + MINUTE <= b
  {
    assert a == a / MINUTE * MINUTE && b == b / MINUTE * MINUTE;
  }

  /** Inactive periods have the last word: adding one never turns a skip into a run, and it turns a run into
      a skip exactly while it applies. */
  lemma InactiveWins(s: ScheduleSpec, p: Period, action: string, t: int)
    ensures Runs(s.(inactivePeriods := s.inactivePeriods + [p]), action, t) <==>
            Runs(s, action, t) && !Applies(p, Truncate(t), action)
  {
    var s' := s.(inactivePeriods := s.inactivePeriods + [p]);
    assert forall q :: q in s'.inactivePeriods <==> q in s.inactivePeriods || q == p;
  }

  /** Adding an active period to a schedule that has some never turns a run into a skip. */
  lemma ActiveWidens(s: ScheduleSpec, p: Period, action: string, t: int)
    requires s.activePeriods != [] && Runs(s, action, t)
    ensures Runs(s.(activePeriods := s.activePeriods + [p]), action, t)
  {
    var q :| q in s.activePeriods && Applies(q, Truncate(t), action);
    assert q in s.activePeriods + [p];
  }

  // ---------------------------------------------------------------- periods of other actions

  /** A period that is limited to other actions makes no difference wherever it stands in either list, as long as
      it is not the only active one. As the only active one it keeps the action from ever running. */
  lemma OtherActionsIgnored(s: ScheduleSpec, before: seq<Period>, p: Period, after: seq<Period>,
                            action: string, t: int)
    requires |p.actions| > 0 && forall j :: 0 <= j < |p.actions| ==> p.actions[j] != action
    ensures Runs(s.(inactivePeriods := before + [p] + after), action, t) <==>
            Runs(s.(inactivePeriods := before + after), action, t)
    ensures before + after != [] ==>
              (Runs(s.(activePeriods := before + [p] + after), action, t) <==>
               Runs(s.(activePeriods := before + after), action, t))
    ensures before + after == [] ==> !Runs(s.(activePeriods := before + [p] + after), action, t)
  {
    assert forall q :: q in before + [p] + after <==> q in before + after || q == p;
  }

  /** When all active periods list other actions only, the action is skipped. */
  lemma OnlyOthersActive(s: ScheduleSpec, action: string, t: int)
    requires |s.activePeriods| > 0
    requires forall i, j :: 0 <= i < |s.activePeriods| && 0 <= j < |s.activePeriods[i].actions| ==>
               s.activePeriods[i].actions[j] != action
    requires forall i :: 0 <= i < |s.activePeriods| ==> |s.activePeriods[i].actions| > 0
    ensures !Runs(s, action, t)
  {
    forall p | p in s.activePeriods ensures !Applies(p, Truncate(t), action) {
      var i :| 0 <= i < |s.activePeriods| && s.activePeriods[i] == p;
    }
  }

  /** An inactive period that takes in the minute skips the action if it lists it, or if it lists none. */
  lemma InactiveSkips(s: ScheduleSpec, i: nat, action: string, t: int)
    requires i < |s.inactivePeriods|
    requires s.inactivePeriods[i].start <= t - t % 60_000_000_000 <= s.inactivePeriods[i].end
    requires s.inactivePeriods[i].actions == [] || action in s.inactivePeriods[i].actions
    ensures !Runs(s, action, t)
  {
    assert s.inactivePeriods[i] in s.inactivePeriods && Truncate(t) == t - t % 60_000_000_000;
  }
}
