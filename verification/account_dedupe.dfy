/**
 The 24-hour dedupe over whole runs.

 The storage keeps one map per day and drops old days, so it never holds the whole
 history. It still answers as the history would: a request is free exactly when the
 same path was charged strictly less than a day before.
 */
module AccountDedupe {
  import opened Wrappers
  import opened Config
  import opened AccountDo

  /** Request `i` of the run was charged, for `path`. */
  ghost predicate ChargedAt(evs: seq<Event>, i: nat, path: string)
    requires i < |evs|
  {
    && evs[i].req.Charge? && evs[i].req.path == path
    && ChargeOutcome(Run(FRESH, evs[..i]), path, evs[i].req.kind, evs[i].at).Charged?
  }

  /** `path` was charged at time `t` in the run. */
  ghost predicate InLog(evs: seq<Event>, path: string, t: nat) {
    exists i | 0 <= i < |evs| :: ChargedAt(evs, i, path) && evs[i].at == t
  }

  /** Charged strictly within the last day. */
  ghost predicate ChargedWithinDay(evs: seq<Event>, path: string, now: nat) {
    exists i | 0 <= i < |evs| :: ChargedAt(evs, i, path) && now - evs[i].at < DEDUPE_WINDOW_SECS
  }

  /** A stored entry: the map of `day` holds time `t` for `path`. */
  predicate Stored(a: Account, day: nat, path: string, t: nat) {
    path in DayMap(a.seen, day) && DayMap(a.seen, day)[path] == t
  }

  /** From the day before `now` on, each day's map holds exactly that day's part of the log. */
  ghost predicate SeenMatchesLog(evs: seq<Event>, now: Clock) {
    forall path, t: nat | t / DAY_SECS >= now / DAY_SECS - 1 ::
      Stored(Run(FRESH, evs), t / DAY_SECS, path, t) <==> InLog(evs, path, t)
  }

  /** A day's map holds only times of that day. */
  ghost predicate SeenByDay(a: Account) {
    forall day: nat, path, t: nat | Stored(a, day, path, t) :: t / DAY_SECS == day
  }

  lemma {:induction false} SeenByDayRun(evs: seq<Event>)
    ensures SeenByDay(Run(FRESH, evs))
  {
    if evs != [] {
      var a, e := Run(FRESH, evs[..|evs| - 1]), evs[|evs| - 1];
      SeenByDayRun(evs[..|evs| - 1]);
      forall day: nat, path, t: nat | Stored(Step(a, e), day, path, t) ensures t / DAY_SECS == day {
        assert Stored(a, day, path, t) || (t == e.at && day == e.at / DAY_SECS);
      }
    }
  }

  lemma LogExtends(evs: seq<Event>, path: string, t: nat)
    requires evs != []
    ensures var last := |evs| - 1;
            InLog(evs, path, t) <==> InLog(evs[..last], path, t) || (ChargedAt(evs, last, path) && evs[last].at == t)
  {
    var last := |evs| - 1;
    forall i | 0 <= i < last ensures ChargedAt(evs, i, path) <==> ChargedAt(evs[..last], i, path) {
      assert evs[..last][..i] == evs[..i];
    }
    if InLog(evs[..last], path, t) {
      var i :| 0 <= i < last && ChargedAt(evs[..last], i, path) && evs[i].at == t;
      assert ChargedAt(evs, i, path);
    }
  }

  lemma StoredRecently(evs: seq<Event>, path: string, now: Clock, day: nat)
    requires SeenMatchesLog(evs, now) && now / DAY_SECS - 1 <= day
    requires SeenAfter(DayMap(Run(FRESH, evs).seen, day), path, now - DEDUPE_WINDOW_SECS)
    ensures ChargedWithinDay(evs, path, now)
  {
    var t := DayMap(Run(FRESH, evs).seen, day)[path];
    SeenByDayRun(evs);
    assert Stored(Run(FRESH, evs), day, path, t);
    assert InLog(evs, path, t);
  }

  lemma LoggedTime(evs: seq<Event>, path: string, now: Clock) returns (t: nat)
    requires Sorted(2 * DAY_SECS, evs) && Last(2 * DAY_SECS, evs) <= now && ChargedWithinDay(evs, path, now)
    ensures InLog(evs, path, t) && now - DEDUPE_WINDOW_SECS < t <= now
  {
    var i :| 0 <= i < |evs| && ChargedAt(evs, i, path) && now - evs[i].at < DEDUPE_WINDOW_SECS;
    t := evs[i].at;
  }

  lemma StoredIsRecent(a: Account, path: string, now: Clock, t: nat)
    requires Stored(a, t / DAY_SECS, path, t) && now - DEDUPE_WINDOW_SECS < t <= now
    ensures IsRecentView(a, path, now)
  {
    assert t / DAY_SECS == now / DAY_SECS || t / DAY_SECS == now / DAY_SECS - 1;
  }

  /** Recent, by the two maps, is recent by the log. */
  lemma RecentMeansLogged(evs: seq<Event>, path: string, now: Clock)
    requires Sorted(2 * DAY_SECS, evs) && Last(2 * DAY_SECS, evs) <= now && SeenMatchesLog(evs, now)
    ensures IsRecentView(Run(FRESH, evs), path, now) <==> ChargedWithinDay(evs, path, now)
  {
    var day := now / DAY_SECS;
    if SeenAfter(DayMap(Run(FRESH, evs).seen, day), path, now - DEDUPE_WINDOW_SECS) {
      StoredRecently(evs, path, now, day);
    } else if IsRecentView(Run(FRESH, evs), path, now) {
      StoredRecently(evs, path, now, day - 1);
    }
    if ChargedWithinDay(evs, path, now) {
      var t := LoggedTime(evs, path, now);
      StoredIsRecent(Run(FRESH, evs), path, now, t);
    }
  }

  /** Requests that charge nothing leave the maps alone; a charge adds its own entry. */
  lemma StoredStep(a: Account, e: Event, path: string, t: nat)
    requires t / DAY_SECS >= e.at / DAY_SECS - 1
    ensures var charged := e.req.Charge? && ChargeOutcome(a, e.req.path, e.req.kind, e.at).Charged?;
            Stored(Step(a, e), t / DAY_SECS, path, t) <==>
              if charged && e.req.path == path && t / DAY_SECS == e.at / DAY_SECS then t == e.at
              else Stored(a, t / DAY_SECS, path, t)
  {
    var charged := e.req.Charge? && ChargeOutcome(a, e.req.path, e.req.kind, e.at).Charged?;
    if charged {
      var seen' := Remember(a.seen, e.req.path, e.at);
      assert Step(a, e).seen == seen';
      assert t / DAY_SECS != e.at / DAY_SECS ==> DayMap(seen', t / DAY_SECS) == DayMap(a.seen, t / DAY_SECS);
      assert DayMap(seen', e.at / DAY_SECS) == DayMap(a.seen, e.at / DAY_SECS)[e.req.path := e.at];
    }
  }

  lemma {:induction false} SeenMatchesLogRun(evs: seq<Event>, now: Clock)
    requires Sorted(2 * DAY_SECS, evs) && Last(2 * DAY_SECS, evs) <= now
    ensures SeenMatchesLog(evs, now)
  {
    if evs == [] {
      return;
    }
    var init, e := evs[..|evs| - 1], evs[|evs| - 1];
    var a := Run(FRESH, init);
    SeenMatchesLogRun(init, e.at);
    forall path, t: nat | t / DAY_SECS >= now / DAY_SECS - 1
      ensures Stored(Run(FRESH, evs), t / DAY_SECS, path, t) <==> InLog(evs, path, t)
    {
      StoredStep(a, e, path, t);
      LogExtends(evs, path, t);
      RecentMeansLogged(init, path, e.at); // a second charge of the path on the same day would have been free
    }
  }

  /** Every charge of every run: free if and only if the same path was charged within the last day. */
  lemma DedupeRefinesLog(evs: seq<Event>, path: string, kind: ChargeKind, now: Clock)
    requires Sorted(2 * DAY_SECS, evs) && Last(2 * DAY_SECS, evs) <= now
    requires !Run(FRESH, evs).banned
    ensures ChargeOutcome(Run(FRESH, evs), path, kind, now) == Free <==> ChargedWithinDay(evs, path, now)
  {
    SeenMatchesLogRun(evs, now);
    RecentMeansLogged(evs, path, now);
  }
}
