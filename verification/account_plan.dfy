/**
 How long a plan lasts, over whole runs: one period from the purchase, never more.
 */
module AccountPlan {
  import opened Wrappers
  import opened Config
  import opened AccountDo
  import opened AccountQuota

  /** A stored plan ends within one of its periods. */
  predicate WithinPeriod(a: Account, now: nat) {
    a.plan.Some? && FindPlan(a.plan.value).Some? ==> a.periodEnd <= now + FindPlan(a.plan.value).value.periodSecs
  }

  lemma PeriodStep(a: Account, e: Event)
    requires WithinPeriod(a, e.at)
    ensures WithinPeriod(Step(a, e), e.at)
  {
    match e.req
    case Charge(path, kind) => ChargeKeepsPlan(a, path, kind, e.at);
    case _ =>
  }

  lemma ChargeKeepsPlan(a: Account, path: string, kind: ChargeKind, now: Clock)
    ensures AfterCharge(a, path, kind, now).plan == a.plan && AfterCharge(a, path, kind, now).periodEnd == a.periodEnd
  {
  }

  /** Over every run of a new account a stored plan is a known one and ends no later than one period of it after
      the last request: subscribing again never stacks time. */
  lemma {:induction false} PeriodsNeverStack(from: nat, evs: seq<Event>)
    requires Sorted(from, evs)
    ensures var a := Run(FRESH, evs);
            a.plan.Some? ==> FindPlan(a.plan.value).Some?
                             && a.periodEnd <= Last(from, evs) + FindPlan(a.plan.value).value.periodSecs
  {
    if evs != [] {
      var init, e := evs[..|evs| - 1], evs[|evs| - 1];
      PeriodsNeverStack(from, init);
      assert Last(from, init) <= e.at;
      PeriodStep(Run(FRESH, init), e);
    }
    SaneRun(FRESH, evs);
  }

  ghost predicate NoUnsubscribe(evs: seq<Event>) {
    forall i | 0 <= i < |evs| :: !evs[i].req.Unsubscribe?
  }

  /** Until the end of its period the plan is stored, and from then on an alarm may have taken it away. */
  lemma {:induction false} PlanKept(a: Account, from: Clock, evs: seq<Event>)
    requires Sane(a) && Sorted(from, evs) && NoSubscribe(a, evs) && NoUnsubscribe(evs)
    ensures Run(a, evs).periodEnd == a.periodEnd
    ensures Run(a, evs).plan == a.plan || (Run(a, evs).plan == None && a.periodEnd <= Last(from, evs))
  {
    if evs != [] {
      var init, e := evs[..|evs| - 1], evs[|evs| - 1];
      NoSubscribePrefix(a, evs);
      PlanKept(a, from, init);
      SaneRun(a, init);
      assert Last(from, init) <= e.at;
      if e.req.Charge? {
        ChargeKeepsPlan(Run(a, init), e.req.path, e.req.kind, e.at);
      }
    }
  }

  /** After a successful subscribe, whatever else is requested, the plan is active exactly until one period later. */
  lemma PlanLastsOnePeriod(a: Account, id: string, since: Clock, evs: seq<Event>, t: Clock)
    requires Sane(a) && CanSubscribe(a, id, since)
    requires var b := AfterSubscribe(a, id, since); Sorted(since, evs) && NoSubscribe(b, evs) && NoUnsubscribe(evs)
    requires Last(since, evs) <= t
    ensures var b := Run(AfterSubscribe(a, id, since), evs);
            && (Active(b, t) <==> t < since + FindPlan(id).value.periodSecs)
            && (Active(b, t) ==> b.plan == Some(id))
  {
    SaneStep(a, Event(since, Subscribe(id)));
    var b := AfterSubscribe(a, id, since);
    assert b == Step(a, Event(since, Subscribe(id)));
    assert b.plan == Some(id) && b.periodEnd == since + FindPlan(id).value.periodSecs;
    PlanKept(b, since, evs);
  }

  /** Unsubscribing leaves no plan, and the whole worth in the balance. */
  lemma UnsubscribeEnds(a: Account, now: Clock, t: Clock)
    ensures var b := AfterUnsubscribe(a, now);
            b.plan == None && !Active(b, t) && b.balance == a.balance + Refund(a, now) && Refund(b, t) == 0
  {
  }

  /** An alarm at or after the end leaves no plan and no window; an earlier one changes nothing. */
  lemma AlarmEnds(a: Account, now: Clock)
    ensures a.periodEnd <= now ==> AfterAlarm(a, now).plan == None && AfterAlarm(a, now).balance == a.balance
    ensures a.plan.Some? && a.periodEnd <= now ==> AfterAlarm(a, now).window == CLOSED
    ensures Active(a, now) ==> AfterAlarm(a, now) == a
  {
  }
}
