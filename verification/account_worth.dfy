/**
 What an account is worth: its balance plus the prorated refund of its active plan.

 No request creates worth except a credit, and plan changes move it without loss.
 Over any run the worth of an account, plus everything it paid as it went, is at
 most the free grant plus the credits applied to it.
 */
module AccountWorth {
  import opened Arithmetic
  import opened Wrappers
  import opened Config
  import opened AccountDo

  function Worth(a: Account, now: Clock): int {
    a.balance + Refund(a, now)
  }

  /** Worth, counting the free grant as owed until the account is first touched. */
  function Potential(a: Account, now: Clock): int {
    Worth(a, now) + if a.init then 0 else FREE_GRANT_POINTS
  }

  /** Points a request takes from the balance for usage. */
  function Paid(a: Account, e: Event): int {
    match e.req
    case Charge(path, kind) =>
      if ChargeOutcome(a, path, kind, e.at) == Charged(Balance) then ViewCost(kind) else 0
    case _ => 0
  }

  /** Points a credit really moves: nothing on a replay, and never below an empty balance. */
  function Applied(a: Account, e: Event): int {
    match e.req
    case Credit(points, key) =>
      if key in a.credits then 0 else if a.balance + points < 0 then -a.balance else points
    case _ => 0
  }

  function TotalPaid(a: Account, evs: seq<Event>): int {
    if evs == [] then 0
    else TotalPaid(a, evs[..|evs| - 1]) + Paid(Run(a, evs[..|evs| - 1]), evs[|evs| - 1])
  }

  function TotalApplied(a: Account, evs: seq<Event>): int {
    if evs == [] then 0
    else TotalApplied(a, evs[..|evs| - 1]) + Applied(Run(a, evs[..|evs| - 1]), evs[|evs| - 1])
  }

  /** Every key credited in `evs`. */
  function Keys(evs: seq<Event>): set<string> {
    set i | 0 <= i < |evs| && evs[i].req.Credit? :: evs[i].req.key
  }

  /** The positive credits of a run, each idempotency key counted at its first use only. */
  function PositiveCredits(evs: seq<Event>): int {
    if evs == [] then 0 else
    var init, last := evs[..|evs| - 1], evs[|evs| - 1].req;
    PositiveCredits(init) + if last.Credit? && last.key !in Keys(init) then Max(0, last.points) else 0
  }

  // ---- one request ---------------------------------------------------------

  lemma ProratedBounds(price: nat, period: nat, r: nat, r': nat)
    requires r <= r'
    ensures 0 <= ProratedRefund(price, period, r) <= ProratedRefund(price, period, r') <= price
    ensures period > 0 ==> ProratedRefund(price, period, period) == price
  {
    if period > 0 {
      var m := if r < period then r else period;
      var m' := if r' < period then r' else period;
      DivMonotone(price * m, price * m', period) by { MulMonotone(price, m, m'); MulMonotone(price, 0, m); }
      DivMonotone(price * m', price * period, period) by { MulMonotone(price, m', period); MulMonotone(price, 0, m'); }
      DivUnique(price * period, period, price);
    }
  }

  lemma WorthDecays(a: Account, t: Clock, t': Clock)
    requires t <= t'
    ensures Worth(a, t') <= Worth(a, t)
  {
    RefundBounds(a, t);
    if Active(a, t') && PlanOf(a).Some? {
      var p := PlanOf(a).value;
      assert p in {BASIC, PRO};
      ProratedBounds(p.pricePoints, p.periodSecs, a.periodEnd - t', a.periodEnd - t);
    }
  }

  /** Buying, renewing or switching keeps the worth to the point, and the `max(0)` never bites. */
  lemma SubscribeKeepsWorth(a: Account, id: string, now: Clock)
    requires Sane(a)
    ensures Worth(AfterSubscribe(a, id, now), now) == Worth(a, now)
    ensures CanSubscribe(a, id, now) ==>
              AfterSubscribe(a, id, now).balance == a.balance - (FindPlan(id).value.pricePoints - Refund(a, now))
  {
    RefundBounds(a, now);
    if CanSubscribe(a, id, now) {
      var p := FindPlan(id).value;
      assert p in {BASIC, PRO} && FindPlan(p.id) == Some(p);
      ProratedBounds(p.pricePoints, p.periodSecs, 0, p.periodSecs);
    }
  }

  lemma LapseKeepsWorth(a: Account, now: Clock)
    ensures Worth(AfterUnsubscribe(a, now), now) == Worth(a, now)
    ensures Worth(AfterAlarm(a, now), now) == Worth(a, now)
  {
  }

  /** The first touch replaces the balance by the grant: it adds the whole grant exactly when
      there was nothing to replace. Points credited before it are lost. */
  lemma FirstTouch(a: Account, now: Clock)
    requires !a.init && Sane(a)
    ensures Potential(Initialised(a), now) == Potential(a, now) - a.balance
    ensures Worth(Initialised(a), now) == Worth(a, now) + FREE_GRANT_POINTS <==> a.balance == 0
  {
  }

  /** A charge costs exactly what it draws from the balance. */
  lemma ChargeLedger(a: Account, path: string, kind: ChargeKind, now: Clock)
    ensures Worth(AfterCharge(a, path, kind, now), now)
         == Worth(Initialised(a), now) - Paid(a, Event(now, Charge(path, kind)))
  {
    var a0, a1 := Initialised(a), AfterCharge(a, path, kind, now);
    assert a1.plan == a0.plan && a1.periodEnd == a0.periodEnd;
    assert Refund(a1, now) == Refund(a0, now);
  }

  /** The ledger of one request: an equation once the account is initialised. */
  lemma StepLedger(a: Account, e: Event)
    requires Sane(a)
    ensures Potential(Step(a, e), e.at) <= Potential(a, e.at) + Applied(a, e) - Paid(a, e)
    ensures a.init ==> Worth(Step(a, e), e.at) == Worth(a, e.at) + Applied(a, e) - Paid(a, e)
  {
    match e.req
    case Charge(path, kind) => ChargeLedger(a, path, kind, e.at);
    case Subscribe(id) => SubscribeKeepsWorth(a, id, e.at);
    case Unsubscribe => LapseKeepsWorth(a, e.at);
    case Alarm => LapseKeepsWorth(a, e.at);
    case _ =>
  }

  // ---- whole runs ----------------------------------------------------------

  lemma {:induction false} RunLedger(a: Account, from: Clock, evs: seq<Event>, now: Clock)
    requires Sane(a) && Sorted(from, evs) && Last(from, evs) <= now
    ensures Potential(Run(a, evs), now) + TotalPaid(a, evs) <= Potential(a, from) + TotalApplied(a, evs)
  {
    if evs == [] {
      WorthDecays(a, from, now);
    } else {
      var init, e := evs[..|evs| - 1], evs[|evs| - 1];
      assert Last(from, init) <= e.at;
      RunLedger(a, from, init, e.at);
      SaneRun(a, init);
      StepLedger(Run(a, init), e);
      WorthDecays(Step(Run(a, init), e), e.at, now);
    }
  }

  lemma {:induction false} CreditKeys(evs: seq<Event>)
    ensures Run(FRESH, evs).credits == Keys(evs)
  {
    if evs != [] {
      var init, e := evs[..|evs| - 1], evs[|evs| - 1];
      CreditKeys(init);
      assert Step(Run(FRESH, init), e).credits
          == Run(FRESH, init).credits + if e.req.Credit? then {e.req.key} else {};
      assert forall k :: k in Keys(evs) <==> k in Keys(init) || (e.req.Credit? && k == e.req.key) by {
        forall k | k in Keys(init) || (e.req.Credit? && k == e.req.key) ensures k in Keys(evs) {
          var i :| 0 <= i < |evs| && evs[i].req.Credit? && evs[i].req.key == k;
        }
      }
    }
  }

  lemma {:induction false} AppliedBound(evs: seq<Event>)
    ensures TotalApplied(FRESH, evs) <= PositiveCredits(evs)
  {
    if evs != [] {
      var init := evs[..|evs| - 1];
      AppliedBound(init);
      CreditKeys(init);
      SaneRun(FRESH, init);
    }
  }

  /** Over every run of a new account: what it is worth and what it has paid for usage
      are covered by the free grant and its positive credits, each key counted once. */
  lemma WorthBounded(from: Clock, evs: seq<Event>, now: Clock)
    requires Sorted(from, evs) && Last(from, evs) <= now
    ensures Worth(Run(FRESH, evs), now) + TotalPaid(FRESH, evs) <= FREE_GRANT_POINTS + PositiveCredits(evs)
  {
    RunLedger(FRESH, from, evs, now);
    AppliedBound(evs);
  }
}
