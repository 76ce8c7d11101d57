/**
 The distributed claim protocol (embed/src/cli.rs: the claim query of `fetch_batch`, the
 status updates of `record`).

 Any number of workers share one table of images. A claim takes rows that are pending,
 or processing for longer than `reclaim` seconds, and counts an attempt on each. The two
 status updates name their rows by id alone, so their safety rests on who holds what.
 Ids are positions in a fixed table; a claim is named by its image and attempt number.
 */
module Claims {
  import opened Wrappers

  datatype Status = Pending | Processing | Completed

  datatype Row = Row(status: Status, attempt: nat, claimedAt: Option<nat>)

  /** A live claim: some worker is working on image `id` since `at`. */
  datatype Claim = Claim(id: nat, attempt: nat, at: nat)

  datatype State = State(rows: seq<Row>, claims: set<Claim>, now: nat)

  const MAX_ATTEMPT := 5

  datatype Action =
    | Wait(until: nat)
    | Take(limit: nat, jobs: set<nat>)   // the claim query
    | Complete(done: set<Claim>)
    | Reset(failed: set<Claim>)
    | Crash(lost: set<Claim>)

  /** `timely`: every claim is completed, reset or lost within `reclaim` of being made. */
  datatype Env = Env(reclaim: nat, timely: bool)

  predicate Claimable(env: Env, row: Row, now: nat) {
    && row.attempt <= MAX_ATTEMPT
    && match row.status
       case Pending => true
       case Processing => row.claimedAt.Some? && row.claimedAt.value + env.reclaim < now
       case Completed => false
  }

  predicate Timely(env: Env, s: State) {
    forall c | c in s.claims :: s.now <= c.at + env.reclaim
  }

  /** Rows locked by another query are skipped, so a claim may take any claimable rows, up to its limit. */
  predicate Enabled(env: Env, s: State, a: Action) {
    match a
    case Wait(until) => s.now <= until && (env.timely ==> Timely(env, s.(now := until)))
    case Take(limit, jobs) =>
      |jobs| <= limit && forall i | i in jobs :: i < |s.rows| && Claimable(env, s.rows[i], s.now)
    case Complete(done) => done <= s.claims
    case Reset(failed) => failed <= s.claims
    case Crash(lost) => lost <= s.claims
  }

  function Taken(rows: seq<Row>, jobs: set<nat>, now: nat): (r: seq<Row>)
    ensures |r| == |rows|
  {
    seq(|rows|, i requires 0 <= i < |rows| =>
      if i in jobs then Row(Processing, rows[i].attempt + 1, Some(now)) else rows[i])
  }

  function Ids(claims: set<Claim>): set<nat> {
    set c | c in claims :: c.id
  }

  function WithStatus(rows: seq<Row>, ids: set<nat>, status: Status): (r: seq<Row>)
    ensures |r| == |rows|
  {
    seq(|rows|, i requires 0 <= i < |rows| => if i in ids then rows[i].(status := status) else rows[i])
  }

  function NewClaims(rows: seq<Row>, jobs: set<nat>, now: nat): set<Claim>
    requires forall i | i in jobs :: i < |rows|
  {
    set i | i in jobs :: Claim(i, rows[i].attempt + 1, now)
  }

  function Next(env: Env, s: State, a: Action): State
    requires Enabled(env, s, a)
  {
    match a
    case Wait(until) => s.(now := until)
    case Take(_, jobs) =>
      s.(rows := Taken(s.rows, jobs, s.now), claims := s.claims + NewClaims(s.rows, jobs, s.now))
    case Complete(done) => s.(rows := WithStatus(s.rows, Ids(done), Completed), claims := s.claims - done)
    case Reset(failed) => s.(rows := WithStatus(s.rows, Ids(failed), Pending), claims := s.claims - failed)
    case Crash(lost) => s.(claims := s.claims - lost)
  }

  ghost predicate Allowed(env: Env, s: State, acts: seq<Action>) {
    acts != [] ==>
      && Allowed(env, s, acts[..|acts| - 1])
      && Enabled(env, Exec(env, s, acts[..|acts| - 1]), acts[|acts| - 1])
  }

  ghost function Exec(env: Env, s: State, acts: seq<Action>): State {
    if acts == [] then s else
    var s' := Exec(env, s, acts[..|acts| - 1]);
    if Enabled(env, s', acts[|acts| - 1]) then Next(env, s', acts[|acts| - 1]) else s'
  }

  lemma ExecStep(env: Env, s: State, acts: seq<Action>, a: Action)
    requires Allowed(env, s, acts) && Enabled(env, Exec(env, s, acts), a)
    ensures Allowed(env, s, acts + [a]) && Exec(env, s, acts + [a]) == Next(env, Exec(env, s, acts), a)
  {
    assert (acts + [a])[..|acts|] == acts;
  }

  /** A table nobody works on; rows may be stranded in 'processing'. */
  ghost predicate Initial(s: State) {
    s.claims == {} && forall i :: 0 <= i < |s.rows| ==> s.rows[i].attempt <= MAX_ATTEMPT + 1
  }

  // ---- attempts ------------------------------------------------------------

  /** Claims the table can still give. */
  function Slack(rows: seq<Row>): int {
    if rows == [] then 0 else Slack(rows[..|rows| - 1]) + (MAX_ATTEMPT + 1 - rows[|rows| - 1].attempt)
  }

  /** Rows handed out over a run. */
  ghost function TotalTaken(acts: seq<Action>): nat {
    if acts == [] then 0
    else TotalTaken(acts[..|acts| - 1]) + if acts[|acts| - 1].Take? then |acts[|acts| - 1].jobs| else 0
  }

  ghost function NonEmptyTakes(acts: seq<Action>): nat {
    if acts == [] then 0
    else
      var a := acts[|acts| - 1];
      NonEmptyTakes(acts[..|acts| - 1]) + if a.Take? && a.jobs != {} then 1 else 0
  }

  lemma {:induction false} SlackTaken(rows: seq<Row>, jobs: set<nat>, now: nat)
    requires forall i | i in jobs :: i < |rows|
    ensures Slack(Taken(rows, jobs, now)) == Slack(rows) - |jobs|
  {
    if rows == [] {
      assert jobs == {};
    } else {
      var n := |rows| - 1;
      var jobs' := jobs - {n};
      SlackTaken(rows[..n], jobs', now);
      assert Taken(rows, jobs, now)[..n] == Taken(rows[..n], jobs', now);
      if n in jobs {
        assert jobs == jobs' + {n};
      } else {
        assert jobs == jobs';
      }
    }
  }

  lemma {:induction false} SlackStatus(rows: seq<Row>, ids: set<nat>, status: Status)
    ensures Slack(WithStatus(rows, ids, status)) == Slack(rows)
  {
    if rows != [] {
      var n := |rows| - 1;
      SlackStatus(rows[..n], ids, status);
      assert WithStatus(rows, ids, status)[..n] == WithStatus(rows[..n], ids, status);
    }
  }

  lemma {:induction false} SlackBounds(rows: seq<Row>)
    requires forall i :: 0 <= i < |rows| ==> rows[i].attempt <= MAX_ATTEMPT + 1
    ensures 0 <= Slack(rows) <= (MAX_ATTEMPT + 1) * |rows|
  {
    if rows != [] {
      SlackBounds(rows[..|rows| - 1]);
    }
  }

  /** No attempt counter passes 6, and every claimed row uses up one of the table's remaining attempts. */
  lemma {:induction false} AttemptLedger(env: Env, s: State, acts: seq<Action>)
    requires Initial(s) && Allowed(env, s, acts)
    ensures var s' := Exec(env, s, acts);
            && |s'.rows| == |s.rows|
            && (forall i :: 0 <= i < |s'.rows| ==> s'.rows[i].attempt <= MAX_ATTEMPT + 1)
            && Slack(s'.rows) + TotalTaken(acts) == Slack(s.rows)
  {
    if acts != [] {
      var init, a := acts[..|acts| - 1], acts[|acts| - 1];
      var t := Exec(env, s, init);
      AttemptLedger(env, s, init);
      match a
      case Take(_, jobs) => SlackTaken(t.rows, jobs, t.now);
      case Complete(done) => SlackStatus(t.rows, Ids(done), Completed);
      case Reset(failed) => SlackStatus(t.rows, Ids(failed), Pending);
      case _ =>
    }
  }

  lemma {:induction false} NonEmptyIsTaken(acts: seq<Action>)
    ensures NonEmptyTakes(acts) <= TotalTaken(acts)
  {
    if acts != [] {
      var a := acts[|acts| - 1];
      NonEmptyIsTaken(acts[..|acts| - 1]);
      if a.Take? && a.jobs != {} {
        var i :| i in a.jobs;
        assert |a.jobs - {i}| >= 0;
      }
    }
  }

  /** Over all workers together, a table of n images gives at most 6n non-empty claims, so every loop
      that stops at an empty claim stops. */
  lemma FetchTerminates(env: Env, s: State, acts: seq<Action>)
    requires Initial(s) && Allowed(env, s, acts)
    ensures NonEmptyTakes(acts) <= Slack(s.rows) <= (MAX_ATTEMPT + 1) * |s.rows|
  {
    AttemptLedger(env, s, acts);
    SlackBounds(s.rows);
    SlackBounds(Exec(env, s, acts).rows);
    NonEmptyIsTaken(acts);
  }

  // ---- one holder ----------------------------------------------------------

  predicate OneHolder(s: State) {
    forall c, d | c in s.claims && d in s.claims && c.id == d.id :: c == d
  }

  /** Every live claim is the one its row shows. */
  predicate Shown(s: State, c: Claim) {
    c.id < |s.rows| && s.rows[c.id] == Row(Processing, c.attempt, Some(c.at))
  }

  predicate HoldInv(env: Env, s: State) {
    Timely(env, s) && forall c | c in s.claims :: Shown(s, c)
  }

  predicate CompletedKept(s: State, s': State) {
    |s.rows| <= |s'.rows| && forall i :: 0 <= i < |s.rows| && s.rows[i].status.Completed? ==> s'.rows[i] == s.rows[i]
  }

  lemma HoldStep(env: Env, s: State, a: Action)
    requires env.timely && HoldInv(env, s) && Enabled(env, s, a)
    ensures var s' := Next(env, s, a); HoldInv(env, s') && OneHolder(s') && CompletedKept(s, s')
  {
    var s' := Next(env, s, a);
    forall c | c in s'.claims ensures Shown(s', c) {
      if c in s.claims {
        assert Shown(s, c);
        assert a.Take? ==> c.id !in a.jobs;
        // another claim on the same image would be this one
        assert forall d | d in s.claims && d.id == c.id :: Shown(s, d) && d == c;
      }
    }
    assert forall c | c in s.claims :: Shown(s, c);
  }

  lemma {:induction false} HoldRun(env: Env, s: State, acts: seq<Action>, n: nat)
    requires env.timely && Initial(s) && Allowed(env, s, acts) && n <= |acts|
    ensures HoldInv(env, Exec(env, s, acts)) && OneHolder(Exec(env, s, acts))
    ensures CompletedKept(Exec(env, s, acts[..n]), Exec(env, s, acts))
  {
    if acts != [] {
      var init := acts[..|acts| - 1];
      HoldRun(env, s, init, if n < |acts| then n else |acts| - 1);
      HoldStep(env, Exec(env, s, init), acts[|acts| - 1]);
      if n < |acts| {
        assert init[..n] == acts[..n];
      }
    }
    if n == |acts| {
      assert acts[..n] == acts;
    }
  }

  /** A claim that failed can be made again at once, until the image has had its six attempts; one completed, never. */
  lemma RetryIff(env: Env, s: State, c: Claim, now: nat)
    requires HoldInv(env, s) && c in s.claims && s.now <= now
    ensures Enabled(env, Next(env, s, Reset({c})).(now := now), Take(1, {c.id})) <==> c.attempt < 6
    ensures !Enabled(env, Next(env, s, Complete({c})).(now := now), Take(1, {c.id}))
  {
    assert Shown(s, c);
    assert c in {c} && Ids({c}) == {c.id};
  }

  /** Some claim of image `i` was completed in the run. */
  ghost predicate WasCompleted(acts: seq<Action>, i: nat) {
    exists k | 0 <= k < |acts| :: acts[k].Complete? && i in Ids(acts[k].done)
  }

  lemma CompletedLater(acts: seq<Action>, i: nat)
    requires acts != []
    ensures var a := acts[|acts| - 1];
            WasCompleted(acts, i) <==> WasCompleted(acts[..|acts| - 1], i) || (a.Complete? && i in Ids(a.done))
  {
    var init := acts[..|acts| - 1];
    if WasCompleted(init, i) {
      var k :| 0 <= k < |init| && init[k].Complete? && i in Ids(init[k].done);
      assert acts[k] == init[k];
    }
  }

  /** With timely claims an image is 'completed' exactly when it was before or some claim of it has been completed. */
  lemma {:induction false} CompletedIffDone(env: Env, s: State, acts: seq<Action>, i: nat)
    requires env.timely && Initial(s) && Allowed(env, s, acts) && i < |s.rows|
    ensures |Exec(env, s, acts).rows| == |s.rows|
    ensures Exec(env, s, acts).rows[i].status.Completed? <==> s.rows[i].status.Completed? || WasCompleted(acts, i)
  {
    if acts != [] {
      var init, a := acts[..|acts| - 1], acts[|acts| - 1];
      var t := Exec(env, s, init);
      CompletedIffDone(env, s, init, i);
      HoldRun(env, s, init, 0);
      CompletedLater(acts, i);
      assert forall c | c in t.claims :: Shown(t, c);
      if a.Reset? && i in Ids(a.failed) {
        var c :| c in a.failed && c.id == i;
        assert Shown(t, c);
      }
    }
  }

  /** A claim gives an image a second holder exactly when the first is overdue with attempts left:
      in any state where the live claims are the ones the rows show. */
  lemma SecondHolderIffOverdue(env: Env, s: State, c: Claim)
    requires c in s.claims && Shown(s, c)
    ensures Enabled(env, s, Take(1, {c.id})) <==> c.at + env.reclaim < s.now && c.attempt <= MAX_ATTEMPT
    ensures Enabled(env, s, Take(1, {c.id})) ==> !OneHolder(Next(env, s, Take(1, {c.id})))
  {
    if Enabled(env, s, Take(1, {c.id})) {
      var d := Claim(c.id, c.attempt + 1, s.now);
      var s' := Next(env, s, Take(1, {c.id}));
      assert d in NewClaims(s.rows, {c.id}, s.now) && c in s'.claims && c != d;
    }
  }

  lemma TakeOnly(env: Env, row: Row, claims: set<Claim>, now: nat)
    requires Claimable(env, row, now)
    ensures var s := State([row], claims, now);
            && Enabled(env, s, Take(1, {0}))
            && Next(env, s, Take(1, {0})) == State([Row(Processing, row.attempt + 1, Some(now))],
                                                   claims + {Claim(0, row.attempt + 1, now)}, now)
  {
    assert NewClaims([row], {0}, now) == {Claim(0, row.attempt + 1, now)};
  }

  /** An overdue worker: its image is claimed again. */
  lemma LateClaim(env: Env) returns (s: State, acts: seq<Action>)
    requires !env.timely
    ensures Initial(s) && Allowed(env, s, acts)
    ensures Exec(env, s, acts) == State([Row(Processing, 2, Some(env.reclaim + 1))],
                                        {Claim(0, 1, 0), Claim(0, 2, env.reclaim + 1)}, env.reclaim + 1)
    ensures !OneHolder(Exec(env, s, acts))
  {
    s := State([Row(Pending, 0, None)], {}, 0);
    TakeOnly(env, Row(Pending, 0, None), {}, 0);
    ExecStep(env, s, [], Take(1, {0}));
    acts := [] + [Take(1, {0})];
    ExecStep(env, s, acts, Wait(env.reclaim + 1));
    acts := acts + [Wait(env.reclaim + 1)];
    TakeOnly(env, Row(Processing, 1, Some(0)), {Claim(0, 1, 0)}, env.reclaim + 1);
    ExecStep(env, s, acts, Take(1, {0}));
    acts := acts + [Take(1, {0})];
    assert Claim(0, 1, 0) in Exec(env, s, acts).claims;
  }

  /** The new holder finishes the image, then the late one resets it. */
  lemma LateReset(env: Env) returns (s: State, acts: seq<Action>, n: nat)
    requires !env.timely
    ensures Initial(s) && Allowed(env, s, acts) && n <= |acts|
    ensures !CompletedKept(Exec(env, s, acts[..n]), Exec(env, s, acts))
  {
    s, acts := LateClaim(env);
    var first, second := Claim(0, 1, 0), Claim(0, 2, env.reclaim + 1);
    ExecStep(env, s, acts, Complete({second}));
    acts := acts + [Complete({second})];
    assert Ids({second}) == {0} by { assert second in {second}; }
    n := |acts|;
    ghost var mid := acts;
    assert Exec(env, s, mid).rows[0].status == Completed;
    ExecStep(env, s, acts, Reset({first}));
    acts := acts + [Reset({first})];
    assert acts[..n] == mid;
    assert Ids({first}) == {0} by { assert first in {first}; }
    assert Exec(env, s, acts).rows[0].status == Pending;
  }

  /** No image ever has two holders if and only if claims are always resolved in time. */
  lemma OneHolderIffTimely(env: Env)
    ensures (forall s, acts | Initial(s) && Allowed(env, s, acts) :: OneHolder(Exec(env, s, acts))) <==> env.timely
  {
    if env.timely {
      forall s, acts | Initial(s) && Allowed(env, s, acts) ensures OneHolder(Exec(env, s, acts)) {
        HoldRun(env, s, acts, |acts|);
      }
    } else {
      var s, acts := LateClaim(env);
    }
  }

  /** 'completed' is never left if and only if claims are always resolved in time. */
  lemma CompletedIffTimely(env: Env)
    ensures (forall s, acts, n: nat | Initial(s) && Allowed(env, s, acts) && n <= |acts| ::
               CompletedKept(Exec(env, s, acts[..n]), Exec(env, s, acts))) <==> env.timely
  {
    if env.timely {
      forall s, acts, n: nat | Initial(s) && Allowed(env, s, acts) && n <= |acts|
        ensures CompletedKept(Exec(env, s, acts[..n]), Exec(env, s, acts))
      {
        HoldRun(env, s, acts, n);
      }
    } else {
      var s, acts, n := LateReset(env);
    }
  }
}
