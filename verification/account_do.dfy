/**
 The per-user billing account (user_worker/src/account_do.rs).

 `Account` is the abstract value of the durable storage, and the functions on it
 say what each request does to that value. The class `UserAccount` holds the
 durable keys as fields and runs the handlers step by step; each handler is
 proved to move the storage to the value its function names.

 A handler is one atomic step. A deleted key and a key that was never written
 read the same (`get_or` with a default), so only `plan` and `win_start`, whose
 presence the code tests, are optional.
 */
module AccountDo {
  import opened Arithmetic
  import opened Wrappers
  import opened Config

  /** Wall-clock seconds. The code computes `day - 2`, so the clock is past day two. */
  type Clock = t: nat | 2 * DAY_SECS <= t witness 2 * DAY_SECS

  datatype ChargeKind = Image | Video | Search | EmbedSearch

  /** `win_start`, `win_views` and `win_search`. */
  datatype UsageWindow = UsageWindow(start: Option<nat>, views: int, search: int)

  const CLOSED := UsageWindow(None, 0, 0)

  datatype Account = Account(
    init: bool,
    balance: int,
    plan: Option<string>,
    periodEnd: nat,
    window: UsageWindow,
    seen: map<nat, map<string, nat>>,
    credits: set<string>,
    banned: bool,
    totalViews: int)

  const FRESH := Account(false, 0, None, 0, CLOSED, map[], {}, false, 0)

  /** What a charge draws from. */
  datatype Source = FreeUnlimited | Window | Balance | Refuse

  datatype Outcome = Banned | Free | Charged(source: Source) | Refused

  /** The quota figures in `/charge` and `/status` responses. */
  datatype Figures = Figures(views: Option<int>, searches: Option<int>, reset: nat)

  datatype ChargeResp = ChargeResp(status: int, charged: bool, cost: int, balance: int, figures: Figures)

  // ---- pure decisions ------------------------------------------------------

  function ViewCost(kind: ChargeKind): int {
    match kind
    case Image => COST_IMAGE_VIEW
    case Video => COST_VIDEO_VIEW
    case Search => COST_SEARCH
    case EmbedSearch => COST_EMBED_SEARCH
  }

  predicate SeenAfter(m: map<string, nat>, path: string, cutoff: int) {
    path in m && m[path] > cutoff
  }

  function DayMap(seen: map<nat, map<string, nat>>, day: nat): map<string, nat> {
    if day in seen then seen[day] else map[]
  }

  predicate IsRecentView(a: Account, path: string, now: Clock) {
    var day := now / DAY_SECS;
    || SeenAfter(DayMap(a.seen, day), path, now - DEDUPE_WINDOW_SECS)
    || SeenAfter(DayMap(a.seen, day - 1), path, now - DEDUPE_WINDOW_SECS)
  }

  predicate ShouldRoll(winStart: Option<nat>, now: Clock) {
    winStart.None? || now >= winStart.value + WINDOW_SECS
  }

  function DecideCharge(plan: Option<Plan>, active: bool, kind: ChargeKind,
                        winViews: int, winSearch: int, balance: int, cost: int): Source
  {
    var payg := if balance >= cost then Balance else Refuse;
    if active && plan.Some? then
      if kind.Search? then
        if winSearch < plan.value.searchesPerWindow then Window else payg
      else if plan.value.viewsPerWindow.None? then FreeUnlimited
      else if winViews + cost <= plan.value.viewsPerWindow.value then Window
      else payg
    else payg
  }

  function ViewsRemaining(plan: Option<Plan>, active: bool, winViews: int): Option<int> {
    if !active || plan.None? || plan.value.viewsPerWindow.None? then None
    else Some(Max(0, plan.value.viewsPerWindow.value - winViews))
  }

  function SearchesRemaining(plan: Option<Plan>, active: bool, winSearch: int): Option<int> {
    if !active || plan.None? then None
    else Some(Max(0, plan.value.searchesPerWindow - winSearch))
  }

  function WindowReset(active: bool, winStart: Option<nat>, now: Clock): nat {
    if winStart.Some? && active && now < winStart.value + WINDOW_SECS then winStart.value + WINDOW_SECS else 0
  }

  function ProratedRefund(pricePoints: int, periodSecs: nat, remainingSecs: nat): int {
    if periodSecs == 0 then 0
    else pricePoints * (if remainingSecs < periodSecs then remainingSecs else periodSecs) / periodSecs
  }

  // ---- the account's value -------------------------------------------------

  predicate Active(a: Account, now: Clock) {
    a.plan.Some? && a.periodEnd > now
  }

  function PlanOf(a: Account): Option<Plan> {
    if a.plan.Some? then FindPlan(a.plan.value) else None
  }

  /** The refund the unused remainder of the active plan is worth. */
  function Refund(a: Account, now: Clock): int {
    if Active(a, now) && PlanOf(a).Some? then
      ProratedRefund(PlanOf(a).value.pricePoints, PlanOf(a).value.periodSecs, a.periodEnd - now)
    else 0
  }

  function Initialised(a: Account): Account {
    if a.init then a else a.(init := true, balance := FREE_GRANT_POINTS)
  }

  /** The usage window a charge at `now` draws from: a fresh one if the stored one has elapsed. */
  function Rolled(a: Account, now: Clock): Account {
    if Active(a, now) && ShouldRoll(a.window.start, now) then a.(window := UsageWindow(Some(now), 0, 0)) else a
  }

  function ChargeSource(a: Account, kind: ChargeKind, now: Clock): Source {
    var r := Rolled(a, now);
    DecideCharge(PlanOf(a), Active(a, now), kind, r.window.views, r.window.search, a.balance, ViewCost(kind))
  }

  function ChargeOutcome(a: Account, path: string, kind: ChargeKind, now: Clock): Outcome {
    var a0 := Initialised(a);
    if a0.banned then Banned
    else if IsRecentView(a0, path, now) then Free
    else if ChargeSource(a0, kind, now).Refuse? then Refused
    else Charged(ChargeSource(a0, kind, now))
  }

  /** Remember that `path` was charged at `now`; the first charge of a day drops the map of two days ago. */
  function Remember(seen: map<nat, map<string, nat>>, path: string, now: Clock): map<nat, map<string, nat>> {
    var day := now / DAY_SECS;
    var kept := if day in seen then seen else seen - {day - 2};
    kept[day := DayMap(seen, day)[path := now]]
  }

  function Consume(w: UsageWindow, kind: ChargeKind): UsageWindow {
    if kind.Search? then w.(search := w.search + 1) else w.(views := w.views + ViewCost(kind))
  }

  /** A charge drawn from `source`. */
  function Draw(a: Account, source: Source, path: string, kind: ChargeKind, now: Clock): Account {
    var r := Rolled(a, now);
    r.(balance := if source.Balance? then a.balance - ViewCost(kind) else a.balance,
       window := if source.Window? then Consume(r.window, kind) else r.window,
       seen := Remember(a.seen, path, now),
       totalViews := a.totalViews + 1)
  }

  function AfterCharge(a: Account, path: string, kind: ChargeKind, now: Clock): Account {
    match ChargeOutcome(a, path, kind, now)
    case Charged(source) => Draw(Initialised(a), source, path, kind, now)
    case _ => Initialised(a)
  }

  function AfterCredit(a: Account, points: int, key: string): Account {
    if key in a.credits then a
    else a.(balance := Max(0, a.balance + points), credits := a.credits + {key})
  }

  predicate CanSubscribe(a: Account, id: string, now: Clock) {
    FindPlan(id).Some? && Max(0, FindPlan(id).value.pricePoints - Refund(a, now)) <= Max(0, a.balance)
  }

  function AfterSubscribe(a: Account, id: string, now: Clock): Account {
    if FindPlan(id).None? then a else
    var target := FindPlan(id).value;
    var netCost := target.pricePoints - Refund(a, now);
    if netCost > 0 && a.balance < netCost then a
    else a.(balance := Max(0, a.balance - netCost), plan := Some(target.id), periodEnd := now + target.periodSecs,
            window := UsageWindow(Some(now), 0, 0))
  }

  function Lapsed(a: Account): Account {
    a.(plan := None, window := CLOSED)
  }

  function AfterUnsubscribe(a: Account, now: Clock): Account {
    Lapsed(a).(balance := a.balance + Refund(a, now), periodEnd := 0)
  }

  function AfterAlarm(a: Account, now: Clock): Account {
    if a.plan.None? || a.periodEnd > now then a else Lapsed(a)
  }

  /** `/status`: the stored window if it is open, a full one otherwise; nothing is rolled or written. */
  function WindowFields(a: Account, now: Clock): Figures {
    var open := Active(a, now) && !ShouldRoll(a.window.start, now);
    Figures(
      ViewsRemaining(PlanOf(a), Active(a, now), if open then a.window.views else 0),
      SearchesRemaining(PlanOf(a), Active(a, now), if open then a.window.search else 0),
      WindowReset(Active(a, now), a.window.start, now))
  }

  // ---- the durable object --------------------------------------------------

  class UserAccount {
    var init: bool
    var balance: int
    var plan: Option<string>
    var periodEnd: nat
    var winStart: Option<nat>
    var winViews: int
    var winSearch: int
    var seen: map<nat, map<string, nat>>
    var credits: set<string>
    var banned: bool
    var totalViews: int

    /** The value of the whole durable storage. */
    function Value(): Account
      reads this
    {
      Account(init, balance, plan, periodEnd, UsageWindow(winStart, winViews, winSearch), seen, credits, banned, totalViews)
    }

    constructor ()
      ensures Value() == FRESH
    {
      init, balance, plan, periodEnd := false, 0, None, 0;
      winStart, winViews, winSearch := None, 0, 0;
      seen, credits, banned, totalViews := map[], {}, false, 0;
    }

    method EnsureInit()
      modifies this
      ensures Value() == Initialised(old(Value()))
    {
      if !init {
        balance := FREE_GRANT_POINTS;
        init := true;
      }
    }

    method ReadWindowFields(active: bool, planCfg: Option<Plan>, now: Clock) returns (figures: Figures)
      requires active == Active(Value(), now)
      requires active ==> planCfg == PlanOf(Value())
      ensures figures == WindowFields(Value(), now)
    {
      var open := active && !ShouldRoll(winStart, now);
      var views, searches := 0, 0;
      if open {
        views, searches := winViews, winSearch;
      }
      figures := Figures(ViewsRemaining(planCfg, active, views), SearchesRemaining(planCfg, active, searches),
                         WindowReset(active, winStart, now));
    }

    /** The figures reported are those `/status` reports at the same instant, unless a charge on a
        window about to be opened is refused (`ChargeReportsStatus` shows that never happens to a known plan). */
    method Charge(path: string, kind: ChargeKind, now: Clock) returns (resp: ChargeResp)
      modifies this
      ensures Value() == AfterCharge(old(Value()), path, kind, now)
      ensures match ChargeOutcome(old(Value()), path, kind, now)
              case Banned => resp.status == 403
              case Refused => resp.status == 402
              case _ => resp.status == 200
      ensures resp.charged == ChargeOutcome(old(Value()), path, kind, now).Charged?
      ensures resp.status != 403 ==> resp.cost == ViewCost(kind) && resp.balance == balance
      ensures resp.status == 200 ==> resp.figures == WindowFields(Value(), now)
      ensures resp.status == 402 ==> resp.figures == WindowFields(Rolled(Value(), now), now)
    {
      EnsureInit();
      ghost var a := Value();
      ghost var outcome := ChargeOutcome(old(Value()), path, kind, now);
      if banned {
        return ChargeResp(403, false, 0, 0, Figures(None, None, 0));
      }
      var day := now / DAY_SECS;
      var todayMap := DayMap(seen, day);
      var yesterday := DayMap(seen, day - 1);
      var cost := ViewCost(kind);
      var active := plan.Some? && periodEnd > now;
      var planCfg := if active then FindPlan(plan.value) else None;

      assert active == Active(a, now) && (active ==> planCfg == PlanOf(a));

      var cutoff := now - DEDUPE_WINDOW_SECS;
      if SeenAfter(todayMap, path, cutoff) || SeenAfter(yesterday, path, cutoff) {
        var figures := ReadWindowFields(active, planCfg, now);
        return ChargeResp(200, false, cost, balance, figures);
      }

      var start, views, search := winStart, winViews, winSearch;
      var windowDirty := false;
      if active && ShouldRoll(start, now) {
        start, views, search := Some(now), 0, 0;
        windowDirty := true;
      }
      ghost var r := Rolled(a, now);
      assert r == a.(window := UsageWindow(start, views, search));
      var source := DecideCharge(planCfg, active, kind, views, search, balance, cost);
      assert source == ChargeSource(a, kind, now);
      if source == Refuse {
        return ChargeResp(402, false, cost, balance,
                          Figures(ViewsRemaining(planCfg, active, views), SearchesRemaining(planCfg, active, search),
                                  WindowReset(active, start, now)));
      }
      assert outcome == Charged(source);
      views, search := Settle(path, kind, now, source, windowDirty, start, views, search);
      resp := ChargeResp(200, true, cost, balance,
                         Figures(ViewsRemaining(planCfg, active, views), SearchesRemaining(planCfg, active, search),
                                 WindowReset(active, start, now)));
    }

    /** Write today's dedupe map; the first charge of a day drops the map of two days ago. */
    method RecordSeen(path: string, now: Clock)
      modifies this`seen
      ensures seen == Remember(old(seen), path, now)
    {
      var day := now / DAY_SECS;
      var todayMap := DayMap(seen, day);
      if day !in seen {
        seen := seen - {day - 2};
      }
      seen := seen[day := todayMap[path := now]];
    }

    /** The writes of a charge drawn from `source`; `start`, `views0` and `search0` are the rolled window. */
    method Settle(path: string, kind: ChargeKind, now: Clock, source: Source,
                  rolled: bool, start: Option<nat>, views0: int, search0: int)
      returns (views: int, search: int)
      requires source != Refuse && (source == Window ==> start.Some?)
      requires rolled <==> Active(Value(), now) && ShouldRoll(winStart, now)
      requires Rolled(Value(), now) == Value().(window := UsageWindow(start, views0, search0))
      modifies this
      ensures Value() == Draw(old(Value()), source, path, kind, now)
      ensures views == winViews && search == winSearch
    {
      var windowDirty, newBalance := rolled, balance;
      views, search := views0, search0;
      if source == Window {
        views, search := DrawUnits(kind, start, views, search);
        windowDirty := true;
      } else if source == Balance {
        newBalance := newBalance - ViewCost(kind);
      }
      RecordSeen(path, now);
      balance, totalViews := newBalance, totalViews + 1;
      if windowDirty {
        PutWindow(start, views, search);
      }
    }

    /** A search counts one; the others their cost in view units. */
    static method DrawUnits(kind: ChargeKind, ghost start: Option<nat>, views0: int, search0: int) returns (views: int, search: int)
      ensures UsageWindow(start, views, search) == Consume(UsageWindow(start, views0, search0), kind)
    {
      views, search := views0, search0;
      if kind == Search {
        search := search + 1;
      } else {
        views := views + ViewCost(kind);
      }
    }

    /** The `expect` on the window's start never fails: both callers' branches have one. */
    method PutWindow(start: Option<nat>, views: int, search: int)
      requires start.Some?
      modifies this`winStart, this`winViews, this`winSearch
      ensures winStart == start && winViews == views && winSearch == search
    {
      winStart := Some(start.value);
      winViews := views;
      winSearch := search;
    }

    method Credit(points: int, key: string) returns (newBalance: int, applied: bool)
      modifies this
      ensures Value() == AfterCredit(old(Value()), points, key)
      ensures newBalance == balance && applied == (key !in old(credits))
    {
      newBalance := balance;
      if key in credits {
        return newBalance, false;
      }
      newBalance := Max(0, newBalance + points);
      balance := newBalance;
      credits := credits + {key};
      applied := true;
    }

    /** 400 and 402 leave the storage as it was. */
    method Subscribe(id: string, now: Clock) returns (status: int)
      modifies this
      ensures Value() == AfterSubscribe(old(Value()), id, now)
      ensures status == 400 <==> FindPlan(id).None?
      ensures old(balance) >= 0 ==> (status == 200 <==> CanSubscribe(old(Value()), id, now))
      ensures status in {200, 400, 402} && (status != 200 ==> Value() == old(Value()))
    {
      var found := FindPlan(id);
      if found.None? {
        return 400;
      }
      var target := found.value;
      var active := plan.Some? && periodEnd > now;
      var refund := 0;
      if active {
        var current := FindPlan(plan.value);
        if current.Some? {
          refund := ProratedRefund(current.value.pricePoints, current.value.periodSecs, periodEnd - now);
        }
      }
      var netCost := target.pricePoints - refund;
      if netCost > 0 && balance < netCost {
        return 402;
      }
      balance := Max(0, balance - netCost);
      plan := Some(target.id);
      periodEnd := now + target.periodSecs;
      winStart, winViews, winSearch := Some(now), 0, 0;
      status := 200;
    }

    method Unsubscribe(now: Clock)
      modifies this
      ensures Value() == AfterUnsubscribe(old(Value()), now)
    {
      if plan.Some? && periodEnd > now {
        var current := FindPlan(plan.value);
        if current.Some? {
          balance := balance + ProratedRefund(current.value.pricePoints, current.value.periodSecs, periodEnd - now);
        }
      }
      plan, periodEnd := None, 0;
      winStart, winViews, winSearch := None, 0, 0;
    }

    method Alarm(now: Clock)
      modifies this
      ensures Value() == AfterAlarm(old(Value()), now)
    {
      if plan.None? || periodEnd > now {
        return;
      }
      plan := None;
      winStart, winViews, winSearch := None, 0, 0;
    }

    method Ban(b: bool)
      modifies this
      ensures Value() == old(Value()).(banned := b)
    {
      banned := b;
    }
  }

  // ---- runs ----------------------------------------------------------------

  datatype Request =
    | Init
    | Charge(path: string, kind: ChargeKind)
    | Credit(points: int, key: string)
    | Subscribe(id: string)
    | Unsubscribe
    | Alarm
    | Ban(banned: bool)

  datatype Event = Event(at: Clock, req: Request)

  function Step(a: Account, e: Event): Account {
    match e.req
    case Init => Initialised(a)
    case Charge(path, kind) => AfterCharge(a, path, kind, e.at)
    case Credit(points, key) => AfterCredit(a, points, key)
    case Subscribe(id) => AfterSubscribe(a, id, e.at)
    case Unsubscribe => AfterUnsubscribe(a, e.at)
    case Alarm => AfterAlarm(a, e.at)
    case Ban(b) => a.(banned := b)
  }

  function Run(a: Account, evs: seq<Event>): Account {
    if evs == [] then a
    else Step(Run(a, evs[..|evs| - 1]), evs[|evs| - 1])
  }

  /** The clock never runs backwards, and starts no earlier than `from`. */
  ghost predicate Sorted(from: nat, evs: seq<Event>) {
    && (forall i :: 0 <= i < |evs| ==> from <= evs[i].at)
    && (forall i, j :: 0 <= i < j < |evs| ==> evs[i].at <= evs[j].at)
  }

  /** Time of the last event, or `from` when there is none. */
  function Last(from: nat, evs: seq<Event>): nat {
    if evs == [] then from else evs[|evs| - 1].at
  }

  /** What every reachable account satisfies. */
  predicate Sane(a: Account) {
    && a.balance >= 0
    && (a.plan.Some? ==> FindPlan(a.plan.value).Some? && a.window.start.Some?)
    && a.window.views >= 0 && a.window.search >= 0
  }

  lemma RefundBounds(a: Account, now: Clock)
    ensures 0 <= Refund(a, now)
    ensures PlanOf(a).Some? ==> Refund(a, now) <= PlanOf(a).value.pricePoints
  {
    if Active(a, now) && PlanOf(a).Some? {
      assert PlanOf(a).value in {BASIC, PRO};
    }
  }

  lemma SaneCharge(a: Account, path: string, kind: ChargeKind, now: Clock)
    requires Sane(a)
    ensures Sane(AfterCharge(a, path, kind, now))
  {
    var a0 := Initialised(a);
    assert Sane(Rolled(a0, now));
  }

  lemma SaneStep(a: Account, e: Event)
    requires Sane(a)
    ensures Sane(Step(a, e))
  {
    match e.req
    case Charge(path, kind) => SaneCharge(a, path, kind, e.at);
    case Unsubscribe => RefundBounds(a, e.at);
    case _ =>
  }

  lemma {:induction false} SaneRun(a: Account, evs: seq<Event>)
    requires Sane(a)
    ensures Sane(Run(a, evs))
  {
    if evs != [] {
      SaneRun(a, evs[..|evs| - 1]);
      SaneStep(Run(a, evs[..|evs| - 1]), evs[|evs| - 1]);
    }
  }
}
