/**
 Models loaded on first use and unloaded when idle (search_engine/src/lib.rs: `LazyModel`).

 Every step is instantaneous and sleeps are exact: the reaper wakes at `nextWake`, and nothing
 happens later than that before it does. Times are in nanoseconds.
 */
module Reaper {
  import opened Arithmetic
  import opened Wrappers

  const SECOND := 1_000_000_000

  /** A loaded model, named by its load. */
  type Session = nat

  datatype State = State(session: Option<Session>, lastUsed: nat, nextWake: Option<nat>, now: nat)

  datatype Event =
    | Use(at: nat, load: Result<Session>) // `load` answers when there is no session
    | Wake(at: nat)

  /** How long the reaper sleeps while the session, used at `lastUsed`, is not idle enough. */
  function Wait(timeout: nat, lastUsed: nat, at: nat): nat {
    Max(timeout - (at - lastUsed), SECOND)
  }

  function Initial(timeout: Option<nat>, at: nat): State {
    State(None, at, if timeout.Some? then Some(at) else None, at)
  }

  function AfterUse(s: State, at: nat, load: Result<Session>): State {
    match s.session
    case Some(_) => s.(lastUsed := at, now := at)
    case None => if load.Ok? then s.(session := Some(load.value), lastUsed := at, now := at) else s.(now := at)
  }

  predicate Unloads(timeout: nat, s: State, at: nat) {
    s.session.Some? && at - s.lastUsed >= timeout
  }

  function AfterWake(timeout: nat, s: State, at: nat): State {
    if Unloads(timeout, s, at) then s.(session := None, nextWake := Some(at + timeout), now := at)
    else if s.session.Some? then s.(nextWake := Some(at + Wait(timeout, s.lastUsed, at)), now := at)
    else s.(nextWake := Some(at + timeout), now := at)
  }

  predicate Enabled(s: State, e: Event) {
    && s.now <= e.at
    && match e
       case Use(at, _) => s.nextWake.Some? ==> at <= s.nextWake.value
       case Wake(at) => s.nextWake == Some(at)
  }

  function Step(timeout: Option<nat>, s: State, e: Event): State {
    match e
    case Use(at, load) => AfterUse(s, at, load)
    case Wake(at) => if timeout.Some? then AfterWake(timeout.value, s, at) else s
  }

  /** Times are in order, and a loaded session is always due in time. */
  predicate OnTime(timeout: Option<nat>, s: State) {
    && s.lastUsed <= s.now
    && (s.nextWake.Some? <==> timeout.Some?)
    && (timeout.Some? ==>
         && s.now <= s.nextWake.value
         && if s.session.Some? then s.nextWake.value < s.lastUsed + timeout.value + SECOND
            else s.nextWake.value <= s.now + timeout.value)
  }

  /** While a session is not idle enough, the next look at it is between the end of its timeout and a second later; on time exactly when a second or more is left. */
  lemma WaitBounds(timeout: nat, lastUsed: nat, at: nat)
    requires lastUsed <= at < lastUsed + timeout
    ensures lastUsed + timeout <= at + Wait(timeout, lastUsed, at) < lastUsed + timeout + SECOND
    ensures at + Wait(timeout, lastUsed, at) == lastUsed + timeout <==> at + SECOND <= lastUsed + timeout
  {
  }

  lemma StepOnTime(timeout: Option<nat>, s: State, e: Event)
    requires OnTime(timeout, s) && Enabled(s, e)
    ensures OnTime(timeout, Step(timeout, s, e))
  {
  }

  ghost predicate Runs(timeout: Option<nat>, start: nat, events: seq<Event>) {
    events != [] ==>
      && Runs(timeout, start, events[..|events| - 1])
      && Enabled(Reached(timeout, start, events[..|events| - 1]), events[|events| - 1])
  }

  function Reached(timeout: Option<nat>, start: nat, events: seq<Event>): State {
    if events == [] then Initial(timeout, start)
    else Step(timeout, Reached(timeout, start, events[..|events| - 1]), events[|events| - 1])
  }

  lemma {:induction false} RunOnTime(timeout: Option<nat>, start: nat, events: seq<Event>)
    requires Runs(timeout, start, events)
    ensures OnTime(timeout, Reached(timeout, start, events))
  {
    if events != [] {
      RunOnTime(timeout, start, events[..|events| - 1]);
      StepOnTime(timeout, Reached(timeout, start, events[..|events| - 1]), events[|events| - 1]);
    }
  }

  /** The time of the last use that got a session, if any. */
  function LastUse(timeout: Option<nat>, start: nat, events: seq<Event>): nat {
    if events == [] then start
    else
      var e := events[|events| - 1];
      var s := Reached(timeout, start, events[..|events| - 1]);
      if e.Use? && (s.session.Some? || e.load.Ok?) then e.at
      else LastUse(timeout, start, events[..|events| - 1])
  }

  lemma {:induction false} LastUsedIsLastUse(timeout: Option<nat>, start: nat, events: seq<Event>)
    ensures Reached(timeout, start, events).lastUsed == LastUse(timeout, start, events)
  {
    if events != [] {
      LastUsedIsLastUse(timeout, start, events[..|events| - 1]);
    }
  }

  /**
   Over any run: a session in memory was last used less than the timeout and a second ago,
   and a step that takes one away comes no earlier than the timeout after its last use.
   Without a timeout no step takes one away.
   */
  lemma UnloadedInTime(timeout: Option<nat>, start: nat, events: seq<Event>, e: Event)
    requires Runs(timeout, start, events + [e])
    ensures var s, s' := Reached(timeout, start, events), Reached(timeout, start, events + [e]);
            && (timeout.Some? && s'.session.Some? ==>
                  s'.now < LastUse(timeout, start, events + [e]) + timeout.value + SECOND)
            && (s.session.Some? && s'.session != s.session ==>
                  && timeout.Some? && s'.session == None
                  && LastUse(timeout, start, events) + timeout.value
                     <= e.at < LastUse(timeout, start, events) + timeout.value + SECOND)
  {
    assert (events + [e])[..|events|] == events;
    RunOnTime(timeout, start, events);
    RunOnTime(timeout, start, events + [e]);
    LastUsedIsLastUse(timeout, start, events);
    LastUsedIsLastUse(timeout, start, events + [e]);
  }

  // ---- the object ------------------------------------------------------------

  class LazyModel {
    const idleTimeout: Option<nat>
    var session: Option<Session>
    var lastUsed: nat
    ghost var nextWake: Option<nat>
    ghost var now: nat

    ghost function Now(): State
      reads this
    {
      State(session, lastUsed, nextWake, now)
    }

    ghost predicate Valid()
      reads this
    {
      OnTime(idleTimeout, Now())
    }

    constructor (idleTimeout: Option<nat>, at: nat)
      ensures Valid() && this.idleTimeout == idleTimeout && Now() == Initial(idleTimeout, at)
    {
      this.idleTimeout := idleTimeout;
      session := None;
      lastUsed := at;
      nextWake := if idleTimeout.Some? then Some(at) else None;
      now := at;
    }

    /** The session, loaded first if there is none. */
    method GetSession(at: nat, load: Result<Session>) returns (r: Result<Session>)
      requires Valid() && Enabled(Now(), Use(at, load))
      modifies this
      ensures Valid() && Now() == AfterUse(old(Now()), at, load)
      ensures r == if old(session).Some? then Ok(old(session).value) else load
      ensures r.Ok? ==> session == Some(r.value)
    {
      now := at;
      if session.None? {
        if load.Err? {
          return load;
        }
        session := Some(load.value);
      }
      lastUsed := at;
      r := Ok(session.value);
    }

    /** One round of the reaper; it sleeps for the result. */
    method Reap(at: nat) returns (wait: nat)
      requires Valid() && idleTimeout.Some? && Enabled(Now(), Wake(at))
      modifies this
      ensures Valid() && Now() == AfterWake(idleTimeout.value, old(Now()), at)
      ensures nextWake == Some(at + wait)
    {
      var timeout := idleTimeout.value;
      if session.Some? {
        var elapsed := at - lastUsed;
        if elapsed >= timeout {
          session := None;
          wait := timeout;
        } else {
          wait := Max(timeout - elapsed, SECOND);
        }
      } else {
        wait := timeout;
      }
      now := at;
      nextWake := Some(at + wait);
    }
  }
}
