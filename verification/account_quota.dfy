/**
 Subscription quotas over whole runs, and what `/status` says about the next charge.
 */
module AccountQuota {
  import opened Arithmetic
  import opened Wrappers
  import opened Config
  import opened AccountDo

  /** View units a request draws from the window. */
  function ViewUnits(a: Account, e: Event): int {
    match e.req
    case Charge(path, kind) =>
      if !kind.Search? && ChargeOutcome(a, path, kind, e.at) == Charged(Window) then ViewCost(kind) else 0
    case _ => 0
  }

  /** Searches a request draws from the window. */
  function SearchUnits(a: Account, e: Event): int {
    match e.req
    case Charge(path, kind) =>
      if kind.Search? && ChargeOutcome(a, path, kind, e.at) == Charged(Window) then 1 else 0
    case _ => 0
  }

  function TotalViews(a: Account, evs: seq<Event>): int {
    if evs == [] then 0
    else TotalViews(a, evs[..|evs| - 1]) + ViewUnits(Run(a, evs[..|evs| - 1]), evs[|evs| - 1])
  }

  function TotalSearches(a: Account, evs: seq<Event>): int {
    if evs == [] then 0
    else TotalSearches(a, evs[..|evs| - 1]) + SearchUnits(Run(a, evs[..|evs| - 1]), evs[|evs| - 1])
  }

  /** View units the window may give; none for unlimited views, which draw from no window. */
  function ViewLimit(p: Plan): nat
    requires p in {BASIC, PRO}
  {
    if p.viewsPerWindow.Some? then p.viewsPerWindow.value else 0
  }

  /** No request of the run changes the plan: a subscribe in it is refused. */
  ghost predicate NoSubscribe(a: Account, evs: seq<Event>) {
    forall i | 0 <= i < |evs| :: evs[i].req.Subscribe? ==> !CanSubscribe(Run(a, evs[..i]), evs[i].req.id, evs[i].at)
  }

  /** Since the subscription, every completed window gave at most one quota, and the open one what it counts. */
  ghost predicate QuotaInv(p: Plan, since: Clock, id: Option<string>, w: UsageWindow, now: Clock, views: int, searches: int)
    requires p in {BASIC, PRO}
  {
    && since <= now
    && views <= ViewLimit(p) * ((now - since) / WINDOW_SECS + 1)
    && searches <= p.searchesPerWindow * ((now - since) / WINDOW_SECS + 1)
    && (id.Some? ==>
          && FindPlan(id.value) == Some(p)
          && w.start.Some? && since <= w.start.value <= now
          && w.views <= ViewLimit(p) && w.search <= p.searchesPerWindow
          && var done := (w.start.value - since) / WINDOW_SECS;
             && views <= ViewLimit(p) * done + w.views
             && searches <= p.searchesPerWindow * done + w.search)
  }

  lemma QuotaLater(p: Plan, since: Clock, id: Option<string>, w: UsageWindow, now: Clock, later: Clock, views: int, searches: int)
    requires p in {BASIC, PRO} && QuotaInv(p, since, id, w, now, views, searches) && now <= later
    ensures QuotaInv(p, since, id, w, later, views, searches)
  {
    MulMonotone(ViewLimit(p), (now - since) / WINDOW_SECS + 1, (later - since) / WINDOW_SECS + 1);
    MulMonotone(p.searchesPerWindow, (now - since) / WINDOW_SECS + 1, (later - since) / WINDOW_SECS + 1);
  }

  /** A window opens at least one window length after the last, so its start pays for one more quota. */
  lemma QuotaRolled(p: Plan, since: Clock, id: Option<string>, w: UsageWindow, now: Clock, views: int, searches: int)
    requires p in {BASIC, PRO} && QuotaInv(p, since, id, w, now, views, searches)
    requires id.Some? && ShouldRoll(w.start, now)
    ensures QuotaInv(p, since, id, UsageWindow(Some(now), 0, 0), now, views, searches)
  {
    var done, done' := (w.start.value - since) / WINDOW_SECS, (now - since) / WINDOW_SECS;
    assert done + 1 <= done';
    MulMonotone(ViewLimit(p), done + 1, done');
    MulMonotone(p.searchesPerWindow, done + 1, done');
    assert ViewLimit(p) * (done + 1) == ViewLimit(p) * done + ViewLimit(p);
    assert p.searchesPerWindow * (done + 1) == p.searchesPerWindow * done + p.searchesPerWindow;
  }

  /** Drawing from the open window stays within its quota. */
  lemma QuotaDrawn(p: Plan, since: Clock, id: Option<string>, w: UsageWindow, w': UsageWindow, now: Clock, views: int, searches: int)
    requires p in {BASIC, PRO} && QuotaInv(p, since, id, w, now, views, searches) && id.Some?
    requires w'.start == w.start && w'.views <= ViewLimit(p) && w'.search <= p.searchesPerWindow
    ensures QuotaInv(p, since, id, w', now, views + w'.views - w.views, searches + w'.search - w.search)
  {
    var done, all := (w.start.value - since) / WINDOW_SECS, (now - since) / WINDOW_SECS;
    MulMonotone(ViewLimit(p), done + 1, all + 1);
    MulMonotone(p.searchesPerWindow, done + 1, all + 1);
    assert ViewLimit(p) * (done + 1) == ViewLimit(p) * done + ViewLimit(p);
    assert p.searchesPerWindow * (done + 1) == p.searchesPerWindow * done + p.searchesPerWindow;
  }

  /** How a charge moves the window. */
  lemma ChargeWindow(a: Account, path: string, kind: ChargeKind, now: Clock)
    ensures var b, o := AfterCharge(a, path, kind, now), ChargeOutcome(a, path, kind, now);
            && b.plan == a.plan
            && b.window == (if o == Charged(Window) then Consume(Rolled(a, now).window, kind)
                            else if o.Charged? then Rolled(a, now).window else a.window)
    ensures ChargeOutcome(a, path, kind, now) == Charged(Window) ==>
              var w, p := Rolled(a, now).window, PlanOf(a);
              && Active(a, now) && p.Some?
              && (if kind.Search? then w.search < p.value.searchesPerWindow
                  else p.value.viewsPerWindow.Some? && w.views + ViewCost(kind) <= p.value.viewsPerWindow.value)
  {
  }

  lemma QuotaCharge(p: Plan, since: Clock, a: Account, path: string, kind: ChargeKind, now: Clock, views: int, searches: int)
    requires p in {BASIC, PRO} && QuotaInv(p, since, a.plan, a.window, now, views, searches)
    ensures var e, b := Event(now, Charge(path, kind)), AfterCharge(a, path, kind, now);
            QuotaInv(p, since, b.plan, b.window, now, views + ViewUnits(a, e), searches + SearchUnits(a, e))
  {
    ChargeWindow(a, path, kind, now);
    var w := Rolled(a, now).window;
    if w != a.window {
      QuotaRolled(p, since, a.plan, a.window, now, views, searches);
    }
    if ChargeOutcome(a, path, kind, now) == Charged(Window) {
      QuotaDrawn(p, since, a.plan, w, Consume(w, kind), now, views, searches);
    }
  }

  lemma OthersKeepWindow(a: Account, e: Event)
    requires !e.req.Charge? && a.balance >= 0
    requires e.req.Subscribe? ==> !CanSubscribe(a, e.req.id, e.at)
    ensures Step(a, e).plan.Some? ==> Step(a, e).plan == a.plan && Step(a, e).window == a.window
  {
  }

  lemma QuotaStep(p: Plan, since: Clock, a: Account, e: Event, views: int, searches: int)
    requires p in {BASIC, PRO} && QuotaInv(p, since, a.plan, a.window, e.at, views, searches) && a.balance >= 0
    requires e.req.Subscribe? ==> !CanSubscribe(a, e.req.id, e.at)
    ensures var b := Step(a, e);
            QuotaInv(p, since, b.plan, b.window, e.at, views + ViewUnits(a, e), searches + SearchUnits(a, e))
  {
    if e.req.Charge? {
      QuotaCharge(p, since, a, e.req.path, e.req.kind, e.at, views, searches);
    } else {
      OthersKeepWindow(a, e);
    }
  }

  lemma NoSubscribePrefix(a: Account, evs: seq<Event>)
    requires evs != [] && NoSubscribe(a, evs)
    ensures var init, e := evs[..|evs| - 1], evs[|evs| - 1];
            && NoSubscribe(a, init)
            && (e.req.Subscribe? ==> !CanSubscribe(Run(a, init), e.req.id, e.at))
  {
    var init := evs[..|evs| - 1];
    assert forall i | 0 <= i < |init| :: init[..i] == evs[..i];
  }

  lemma {:induction false} QuotaRun(p: Plan, since: Clock, a: Account, evs: seq<Event>, now: Clock)
    requires p in {BASIC, PRO} && QuotaInv(p, since, a.plan, a.window, since, 0, 0) && Sane(a)
    requires Sorted(since, evs) && Last(since, evs) <= now && NoSubscribe(a, evs)
    ensures var b := Run(a, evs);
            QuotaInv(p, since, b.plan, b.window, now, TotalViews(a, evs), TotalSearches(a, evs))
  {
    if evs == [] {
      QuotaLater(p, since, a.plan, a.window, since, now, 0, 0);
    } else {
      var init, e := evs[..|evs| - 1], evs[|evs| - 1];
      NoSubscribePrefix(a, evs);
      QuotaRun(p, since, a, init, e.at);
      SaneRun(a, init);
      var b, v, s := Run(a, init), TotalViews(a, init), TotalSearches(a, init);
      QuotaStep(p, since, b, e, v, s);
      var c := Step(b, e);
      QuotaLater(p, since, c.plan, c.window, e.at, now, v + ViewUnits(b, e), s + SearchUnits(b, e));
    }
  }

  /** From one successful subscribe to the next, in any run: after `d` seconds the windows have given
      at most one quota for each window length begun. */
  lemma QuotaBounded(a: Account, id: string, since: Clock, evs: seq<Event>, d: nat)
    requires Sane(a) && CanSubscribe(a, id, since)
    requires var b := AfterSubscribe(a, id, since); Sorted(since, evs) && NoSubscribe(b, evs)
    requires Last(since, evs) <= since + d
    ensures var b, p := AfterSubscribe(a, id, since), FindPlan(id).value;
            && TotalViews(b, evs) <= ViewLimit(p) * (d / WINDOW_SECS + 1)
            && TotalSearches(b, evs) <= p.searchesPerWindow * (d / WINDOW_SECS + 1)
  {
    var b, p := AfterSubscribe(a, id, since), FindPlan(id).value;
    SaneStep(a, Event(since, Subscribe(id)));
    assert b == Step(a, Event(since, Subscribe(id)));
    assert FindPlan(p.id) == Some(p) && b.plan == Some(p.id) && b.window == UsageWindow(Some(since), 0, 0);
    assert QuotaInv(p, since, b.plan, b.window, since, 0, 0);
    QuotaRun(p, since, b, evs, since + d);
  }

  // ---- `/status` -----------------------------------------------------------

  /** What `/status` reports decides what a new charge at that instant draws from. */
  lemma StatusPredictsCharge(a: Account, kind: ChargeKind, now: Clock)
    requires Sane(a)
    ensures var f := WindowFields(a, now);
            && (ChargeSource(a, kind, now) == Window <==>
                if kind.Search? then f.searches.Some? && f.searches.value > 0
                else f.views.Some? && f.views.value >= ViewCost(kind))
            && (ChargeSource(a, kind, now) == FreeUnlimited <==>
                !kind.Search? && f.searches.Some? && f.views.None?)
  {
  }

  /** A fresh window never refuses, so a refused charge has not rolled one: every response that carries
      figures carries those `/status` would give right after it. */
  lemma ChargeReportsStatus(a: Account, path: string, kind: ChargeKind, now: Clock)
    requires Sane(a)
    ensures var b := AfterCharge(a, path, kind, now);
            ChargeOutcome(a, path, kind, now) == Refused ==> WindowFields(Rolled(b, now), now) == WindowFields(b, now)
  {
    var a0 := Initialised(a);
    if ChargeOutcome(a, path, kind, now) == Refused {
      assert PlanOf(a0).Some? ==> PlanOf(a0).value in {BASIC, PRO};
      assert Rolled(a0, now) == a0;
    }
  }

  /** A drawn unit leaves the reported quota by exactly what was drawn. */
  lemma ChargeMovesStatus(a: Account, path: string, kind: ChargeKind, now: Clock)
    requires Sane(a) && ChargeOutcome(a, path, kind, now) == Charged(Window)
    ensures var f, f' := WindowFields(a, now), WindowFields(AfterCharge(a, path, kind, now), now);
            if kind.Search? then f'.searches == Some(f.searches.value - 1) && f'.views == f.views
            else f'.views == Some(f.views.value - ViewCost(kind)) && f'.searches == f.searches
  {
    StatusPredictsCharge(Initialised(a), kind, now);
  }

  /** What `/status` shows is left for a charge of this kind: any views at all when they are unlimited. */
  predicate QuotaLeft(f: Figures, kind: ChargeKind) {
    if kind.Search? then f.searches.Some? && f.searches.value > 0
    else f.searches.Some? && (f.views.None? || f.views.value >= ViewCost(kind))
  }

  /** A charge that is neither banned nor a repeat is refused exactly when `/status` shows no quota for it and the
      balance is below its cost; it is paid from the balance exactly when there is no quota and the balance suffices. */
  lemma ChargeDecided(a: Account, path: string, kind: ChargeKind, now: Clock)
    requires Sane(a)
    ensures var a0, o, b := Initialised(a), ChargeOutcome(a, path, kind, now), AfterCharge(a, path, kind, now);
            var quota := QuotaLeft(WindowFields(a0, now), kind);
            && (o == Banned <==> a.banned)
            && (o == Free <==> !a.banned && IsRecentView(a, path, now))
            && (o == Refused <==> !a.banned && !IsRecentView(a, path, now) && !quota && a0.balance < ViewCost(kind))
            && (o == Charged(Balance) <==> !a.banned && !IsRecentView(a, path, now) && !quota && a0.balance >= ViewCost(kind))
            && b.balance == a0.balance - (if o == Charged(Balance) then ViewCost(kind) else 0)
            && (!o.Charged? ==> b == a0)
  {
    StatusPredictsCharge(Initialised(a), kind, now);
  }

  /** Without a plan an image costs 1 point, a video 5, a search 100 and an embedding search 10. */
  lemma PriceList(a: Account, path: string, kind: ChargeKind, now: Clock)
    requires a.init && a.plan.None? && !a.banned && !IsRecentView(a, path, now)
    ensures var cost := match kind case Image => 1 case Video => 5 case Search => 100 case EmbedSearch => 10;
            && (a.balance >= cost ==> AfterCharge(a, path, kind, now).balance == a.balance - cost)
            && (a.balance < cost ==> AfterCharge(a, path, kind, now) == a)
  {
  }

  /** A plan just bought shows its own quotas, and when they come back. */
  lemma SubscribeOpensWindow(a: Account, id: string, now: Clock)
    requires CanSubscribe(a, id, now) && a.balance >= 0
    ensures var p := FindPlan(id).value;
            && p.id == id
            && WindowFields(AfterSubscribe(a, id, now), now)
               == Figures(p.viewsPerWindow, Some(p.searchesPerWindow), now + WINDOW_SECS)
  {
  }

  /** The window of a run that stays before its end. */
  lemma {:induction false} WindowKept(a: Account, evs: seq<Event>)
    requires Sane(a) && a.window.start.Some? && NoSubscribe(a, evs)
    requires forall i :: 0 <= i < |evs| ==> evs[i].at < a.window.start.value + WINDOW_SECS
    ensures Run(a, evs).plan.Some? ==> Run(a, evs).plan == a.plan && Run(a, evs).window.start == a.window.start
  {
    if evs != [] {
      var init, e := evs[..|evs| - 1], evs[|evs| - 1];
      NoSubscribePrefix(a, evs);
      WindowKept(a, init);
      SaneRun(a, init);
      var b := Run(a, init);
      if e.req.Charge? {
        ChargeWindow(b, e.req.path, e.req.kind, e.at);
      } else {
        OthersKeepWindow(b, e);
      }
    }
  }

  /** At the reset time `/status` reported, whatever was requested until then, an account whose plan is still
      active and was not bought anew has its full quota. */
  lemma FullAtReset(a: Account, now: Clock, evs: seq<Event>, t: Clock)
    requires Sane(a) && WindowFields(a, now).reset != 0 && t == WindowFields(a, now).reset
    requires NoSubscribe(a, evs) && forall i :: 0 <= i < |evs| ==> evs[i].at < t
    requires Active(Run(a, evs), t)
    ensures PlanOf(a).Some?
    ensures var p, f := PlanOf(a).value, WindowFields(Run(a, evs), t);
            f.views == p.viewsPerWindow && f.searches == Some(p.searchesPerWindow)
  {
    WindowKept(a, evs);
  }

  /** The reset time shown is ahead, and is when the open window ends: a charge made now leaves it, and opens a window
      with one only if none was shown. */
  lemma ResetShown(a: Account, path: string, kind: ChargeKind, now: Clock)
    requires Sane(a) && Active(a, now)
    ensures var f, f' := WindowFields(a, now), WindowFields(AfterCharge(a, path, kind, now), now);
            && (f.reset == 0 || now < f.reset)
            && (ChargeOutcome(a, path, kind, now).Charged? ==> f'.reset == if f.reset == 0 then now + WINDOW_SECS else f.reset)
            && (!ChargeOutcome(a, path, kind, now).Charged? ==> f' == f)
  {
    ChargeWindow(a, path, kind, now);
  }

  // ---- views counted ---------------------------------------------------------

  function ChargedCount(a: Account, evs: seq<Event>): nat {
    if evs == [] then 0
    else
      var e, b := evs[|evs| - 1], Run(a, evs[..|evs| - 1]);
      ChargedCount(a, evs[..|evs| - 1])
      + if e.req.Charge? && ChargeOutcome(b, e.req.path, e.req.kind, e.at).Charged? then 1 else 0
  }

  /** The view counter counts the charges, repeats and refusals left out. */
  lemma {:induction false} TotalViewsCount(a: Account, evs: seq<Event>)
    ensures Run(a, evs).totalViews == a.totalViews + ChargedCount(a, evs)
  {
    if evs != [] {
      TotalViewsCount(a, evs[..|evs| - 1]);
    }
  }
}
