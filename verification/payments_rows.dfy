/**
 What a payment row says at the end, over whole runs: which handler settled it, and how.
 */
module PaymentRows {
  import opened Payments

  // ---- an answered top-up ------------------------------------------------------

  /** The handler still owns its row, or has answered 200 and left it behind. */
  predicate Sticky(pc: Pc) {
    Holds(pc) || pc == Done(200)
  }

  predicate OneSticky(s: State) {
    forall i, j :: 0 <= i < j < |s.handlers| && Sticky(s.handlers[i].pc) && Sticky(s.handlers[j].pc)
                   ==> s.handlers[i].tx != s.handlers[j].tx
  }

  /** A handler that answered 200 left its row under its own account and not rejected; `written` when no write failed. */
  predicate AnsweredOk(s: State, hd: Handler, written: bool) {
    hd.pc == Done(200) ==>
      && hd.tx in s.rows && s.rows[hd.tx].address == hd.acct && s.rows[hd.tx].status != Rejected
      && (written ==> s.rows[hd.tx].status == Credited && s.rows[hd.tx].points == hd.points)
  }

  ghost predicate AnswersOk(s: State, written: bool) {
    OneSticky(s) && forall h :: 0 <= h < |s.handlers| ==> AnsweredOk(s, s.handlers[h], written)
  }

  predicate WriteFails(a: Action) {
    a.WriteRow? && a.w.Failed?
  }

  ghost predicate NoWriteFails(acts: seq<Action>) {
    forall i :: 0 <= i < |acts| ==> !WriteFails(acts[i])
  }

  lemma OneHandlerMoves(env: Env, s: State, a: Action)
    requires Enabled(env, s, a) && !a.Start? && !a.Relink?
    ensures var s', tx := Next(env, s, a), s.handlers[a.h].tx;
            && |s'.handlers| == |s.handlers|
            && s'.handlers == s.handlers[a.h := s'.handlers[a.h]]
            && s'.handlers[a.h].tx == tx && s'.handlers[a.h].acct == s.handlers[a.h].acct
            && (Sticky(s'.handlers[a.h].pc) ==> Sticky(s.handlers[a.h].pc) || (a.InsertRow? && tx !in s.rows))
  {
  }

  lemma OneRowMoves(env: Env, s: State, a: Action)
    requires Enabled(env, s, a) && !a.Start? && !a.Relink?
    ensures var s', tx := Next(env, s, a), s.handlers[a.h].tx;
            && (forall t | t != tx :: (t in s'.rows <==> t in s.rows) && (t in s.rows ==> s'.rows[t] == s.rows[t]))
            && (!Holds(s.handlers[a.h].pc) && tx in s.rows ==> s'.rows == s.rows)
  {
  }

  /** A step moves one handler, and at most its transaction's row. */
  lemma RowsFootprint(env: Env, s: State, a: Action)
    requires Enabled(env, s, a) && !a.Start? && !a.Relink?
    ensures var s', tx := Next(env, s, a), s.handlers[a.h].tx;
            && |s'.handlers| == |s.handlers|
            && s'.handlers == s.handlers[a.h := s'.handlers[a.h]]
            && s'.handlers[a.h].tx == tx && s'.handlers[a.h].acct == s.handlers[a.h].acct
            && (Sticky(s'.handlers[a.h].pc) ==> Sticky(s.handlers[a.h].pc) || (a.InsertRow? && tx !in s.rows))
            && (forall t | t != tx :: (t in s'.rows <==> t in s.rows) && (t in s.rows ==> s'.rows[t] == s.rows[t]))
            && (!Holds(s.handlers[a.h].pc) && tx in s.rows ==> s'.rows == s.rows)
  {
    OneHandlerMoves(env, s, a);
    OneRowMoves(env, s, a);
  }

  /** The moving handler itself. */
  lemma AnsweredStep(env: Env, s: State, a: Action, written: bool)
    requires Enabled(env, s, a) && !a.Start? && !a.Relink? && HandlerOk(s, s.handlers[a.h])
    requires AnsweredOk(s, s.handlers[a.h], written) && (written ==> !WriteFails(a))
    ensures AnsweredOk(Next(env, s, a), Next(env, s, a).handlers[a.h], written)
  {
  }

  /** Handler `h` moved, and only its transaction's row with it. */
  lemma AnswersAfter(s: State, s': State, h: nat, written: bool)
    requires Inv(s) && AnswersOk(s, written) && h < |s.handlers| == |s'.handlers|
    requires s'.handlers == s.handlers[h := s'.handlers[h]] && s'.handlers[h].tx == s.handlers[h].tx
    requires var tx := s.handlers[h].tx;
             && (forall t | t != tx :: (t in s'.rows <==> t in s.rows) && (t in s.rows ==> s'.rows[t] == s.rows[t]))
             && (Sticky(s'.handlers[h].pc) ==> Sticky(s.handlers[h].pc) || tx !in s.rows)
             && (!Holds(s.handlers[h].pc) && tx in s.rows ==> s'.rows == s.rows)
    requires AnsweredOk(s', s'.handlers[h], written)
    ensures AnswersOk(s', written)
  {
    forall k | 0 <= k < |s.handlers| && k != h && Sticky(s.handlers[k].pc)
      ensures s.handlers[k].tx in s.rows && AnsweredOk(s', s'.handlers[k], written)
      ensures Sticky(s'.handlers[h].pc) ==> s.handlers[k].tx != s.handlers[h].tx
    {
      assert HandlerOk(s, s.handlers[k]) && AnsweredOk(s, s.handlers[k], written);
    }
  }

  lemma AnswersStep(env: Env, s: State, a: Action, written: bool)
    requires Inv(s) && AnswersOk(s, written) && Enabled(env, s, a) && (written ==> !WriteFails(a))
    ensures AnswersOk(Next(env, s, a), written)
  {
    if !a.Start? && !a.Relink? {
      assert HandlerOk(s, s.handlers[a.h]) && AnsweredOk(s, s.handlers[a.h], written);
      RowsFootprint(env, s, a);
      AnsweredStep(env, s, a, written);
      AnswersAfter(s, Next(env, s, a), a.h, written);
    }
  }

  lemma {:induction false} AnswersRun(env: Env, claimant: map<string, string>, acts: seq<Action>)
    requires Allowed(env, Initial(claimant), acts)
    ensures AnswersOk(Exec(env, Initial(claimant), acts), false)
    ensures NoWriteFails(acts) ==> AnswersOk(Exec(env, Initial(claimant), acts), true)
  {
    if acts != [] {
      var init, a := acts[..|acts| - 1], acts[|acts| - 1];
      var s := Exec(env, Initial(claimant), init);
      AnswersRun(env, claimant, init);
      InvRun(env, claimant, init);
      AnswersStep(env, s, a, false);
      if NoWriteFails(acts) {
        assert NoWriteFails(init) && !WriteFails(a);
        AnswersStep(env, s, a, true);
      }
    }
  }

  /** Whoever was answered 200 finds the row under the own account, never rejected; and 'credited' with the points
      credited, when no write failed. */
  lemma AnsweredMeansCredited(env: Env, claimant: map<string, string>, acts: seq<Action>, h: nat)
    requires Allowed(env, Initial(claimant), acts)
    requires var s := Exec(env, Initial(claimant), acts); h < |s.handlers| && s.handlers[h].pc == Done(200)
    ensures var s := Exec(env, Initial(claimant), acts);
            var hd := s.handlers[h];
            && hd.tx in s.rows && s.rows[hd.tx].address == hd.acct && s.rows[hd.tx].status != Rejected
            && (NoWriteFails(acts) ==> s.rows[hd.tx] == Row(hd.acct, Credited, hd.points))
  {
    AnswersRun(env, claimant, acts);
    var s := Exec(env, Initial(claimant), acts);
    assert AnsweredOk(s, s.handlers[h], false);
    if NoWriteFails(acts) {
      assert AnsweredOk(s, s.handlers[h], true);
    }
  }

  // ---- rejected rows -------------------------------------------------------------

  ghost predicate RejectedUncredited(s: State) {
    forall tx | tx in s.rows && s.rows[tx].status == Rejected :: tx !in CreditedTxs(s)
  }

  lemma RejectedStep(env: Env, s: State, a: Action)
    requires Inv(s) && LosslessInv(s) && RejectedUncredited(s) && Enabled(env, s, a)
    ensures RejectedUncredited(Next(env, s, a))
  {
    if !a.Start? && !a.Relink? {
      var s' := Next(env, s, a);
      Footprint(env, s, a);
      RowsFootprint(env, s, a);
      assert HandlerOk(s, s.handlers[a.h]) && Behind(CreditedTxs(s), s.handlers[a.h]);
      forall tx | tx in s'.rows && s'.rows[tx].status == Rejected ensures tx !in CreditedTxs(s') {
        forall m | m in s'.markers ensures m.1 != tx {
          assert m in s.markers ==> m.1 in CreditedTxs(s);
        }
      }
    }
  }

  lemma {:induction false} RejectedRun(env: Env, claimant: map<string, string>, acts: seq<Action>)
    requires Allowed(env, Initial(claimant), acts) && !env.lossy
    ensures RejectedUncredited(Exec(env, Initial(claimant), acts))
  {
    if acts != [] {
      var init, a := acts[..|acts| - 1], acts[|acts| - 1];
      RejectedRun(env, claimant, init);
      InvRun(env, claimant, init);
      SafeRun(env, claimant, init);
      RejectedStep(env, Exec(env, Initial(claimant), init), a);
    }
  }

  /** A handler that finds a free row and a flawed transaction rejects it. */
  lemma RejectRun(env: Env, s0: State, acts: seq<Action>, acct: string, tx: Tx) returns (more: seq<Action>)
    requires Allowed(env, s0, acts) && tx.chain.Ethereum? && tx !in Exec(env, s0, acts).rows
    ensures var s, s' := Exec(env, s0, acts), Exec(env, s0, more);
            && Allowed(env, s0, more)
            && s'.rows == s.rows[tx := Row(acct, Rejected, 0)] && s'.markers == s.markers
  {
    var h := |Exec(env, s0, acts).handlers|;
    more := acts + [Start(acct, tx, acct)];
    ExecStep(env, s0, acts, Start(acct, tx, acct));
    ExecStep(env, s0, more, InsertRow(h, Written));
    more := more + [InsertRow(h, Written)];
    ExecStep(env, s0, more, Ask(h, Intrinsic));
    more := more + [Ask(h, Intrinsic)];
    ExecStep(env, s0, more, WriteRow(h, Written));
    more := more + [WriteRow(h, Written)];
  }

  /** A lost answer releases the row; submitted again, the transaction is rejected although it was credited. */
  lemma CreditedThenRejected(env: Env) returns (claimant: map<string, string>, acts: seq<Action>)
    requires env.lossy
    ensures Allowed(env, Initial(claimant), acts) && !RejectedUncredited(Exec(env, Initial(claimant), acts))
  {
    var tx := Tx("hash", Ethereum, "sender");
    claimant := map[];
    var s0 := Initial(claimant);
    acts := CreditRun(env, s0, [], "sender", tx, "sender");
    ExecStep(env, s0, acts, CreditAnswered(0, false));
    acts := acts + [CreditAnswered(0, false)];
    ExecStep(env, s0, acts, WriteRow(0, Written));
    acts := acts + [WriteRow(0, Written)];
    acts := RejectRun(env, s0, acts, "sender", tx);
    assert ("sender", tx) in Exec(env, s0, acts).markers;
  }

  /** A rejected transaction was credited to nobody, in every run, if and only if answers are never lost. */
  lemma RejectedIffLossless(env: Env)
    ensures (forall claimant, acts | Allowed(env, Initial(claimant), acts) ::
               RejectedUncredited(Exec(env, Initial(claimant), acts))) <==> !env.lossy
  {
    if env.lossy {
      var claimant, acts := CreditedThenRejected(env);
    } else {
      forall claimant, acts | Allowed(env, Initial(claimant), acts)
        ensures RejectedUncredited(Exec(env, Initial(claimant), acts))
      {
        RejectedRun(env, claimant, acts);
      }
    }
  }

  // ---- who may settle or block a transaction --------------------------------------

  /** Some handler of the transaction was told of a flaw of the transaction itself. */
  ghost predicate FoundFlawed(env: Env, claimant: map<string, string>, acts: seq<Action>, tx: Tx) {
    exists i | 0 <= i < |acts| :: FlawedAt(env, claimant, acts, i, tx)
  }

  ghost predicate FlawedAt(env: Env, claimant: map<string, string>, acts: seq<Action>, i: nat, tx: Tx)
    requires i < |acts|
  {
    var s := Exec(env, Initial(claimant), acts[..i]);
    acts[i].Ask? && acts[i].v == Intrinsic && acts[i].h < |s.handlers| && s.handlers[acts[i].h].tx == tx
  }

  lemma FlawedLater(env: Env, claimant: map<string, string>, acts: seq<Action>, tx: Tx)
    requires acts != [] && FoundFlawed(env, claimant, acts[..|acts| - 1], tx)
    ensures FoundFlawed(env, claimant, acts, tx)
  {
    var init := acts[..|acts| - 1];
    var i :| 0 <= i < |init| && FlawedAt(env, claimant, init, i, tx);
    assert init[..i] == acts[..i];
    assert FlawedAt(env, claimant, acts, i, tx);
  }

  /** A row is rejected only for a flaw of its transaction: not for a wrong sender, a failed request or a lost answer. */
  lemma {:induction false} RejectedMeansFlawed(env: Env, claimant: map<string, string>, acts: seq<Action>)
    requires Allowed(env, Initial(claimant), acts)
    ensures var s := Exec(env, Initial(claimant), acts);
            && (forall tx | tx in s.rows && s.rows[tx].status == Rejected :: FoundFlawed(env, claimant, acts, tx))
            && (forall h | 0 <= h < |s.handlers| && s.handlers[h].pc.Reject? :: FoundFlawed(env, claimant, acts, s.handlers[h].tx))
  {
    if acts != [] {
      var init, a := acts[..|acts| - 1], acts[|acts| - 1];
      var s, s' := Exec(env, Initial(claimant), init), Exec(env, Initial(claimant), acts);
      RejectedMeansFlawed(env, claimant, init);
      forall tx | FoundFlawed(env, claimant, init, tx) ensures FoundFlawed(env, claimant, acts, tx) {
        FlawedLater(env, claimant, acts, tx);
      }
      if !a.Start? && !a.Relink? {
        RowsFootprint(env, s, a);
        if a.Ask? && a.v == Intrinsic {
          assert FlawedAt(env, claimant, acts, |acts| - 1, s.handlers[a.h].tx);
        }
      }
    }
  }

  /** The environment lets every handler finish: no crash, and every write answered. */
  predicate Smooth(a: Action) {
    && !a.Crash?
    && (a.InsertRow? ==> a.w != Lost)
    && !WriteFails(a)
  }

  predicate HeldBy(s: State, tx: Tx, h: nat) {
    h < |s.handlers| && s.handlers[h].tx == tx && Holds(s.handlers[h].pc)
  }

  ghost predicate PendingHeld(s: State) {
    forall tx | tx in s.rows && s.rows[tx].status == Pending :: exists h :: HeldBy(s, tx, h)
  }

  /** The moving handler: a row it does not hold any more is settled or gone. */
  lemma PendingMoved(env: Env, s: State, a: Action)
    requires Enabled(env, s, a) && Smooth(a) && !a.Start? && !a.Relink?
    requires HandlerOk(s, s.handlers[a.h])
    ensures var s', tx := Next(env, s, a), s.handlers[a.h].tx;
            && (Holds(s.handlers[a.h].pc) && tx in s'.rows && s'.rows[tx].status == Pending ==> Holds(s'.handlers[a.h].pc))
            && (tx !in s.rows && tx in s'.rows ==> Holds(s'.handlers[a.h].pc))
  {
  }

  lemma PendingStep(env: Env, s: State, a: Action)
    requires Inv(s) && PendingHeld(s) && Enabled(env, s, a) && Smooth(a)
    ensures PendingHeld(Next(env, s, a))
  {
    if a.Start? || a.Relink? {
      HeldStays(s, Next(env, s, a));
    } else {
      RowsFootprint(env, s, a);
      assert HandlerOk(s, s.handlers[a.h]);
      PendingMoved(env, s, a);
      PendingAfter(s, Next(env, s, a), a.h);
    }
  }

  lemma HeldStays(s: State, s': State)
    requires PendingHeld(s) && s'.rows == s.rows && s.handlers <= s'.handlers
    ensures PendingHeld(s')
  {
    forall tx | tx in s'.rows && s'.rows[tx].status == Pending ensures exists h :: HeldBy(s', tx, h) {
      var h :| HeldBy(s, tx, h);
      assert HeldBy(s', tx, h);
    }
  }

  /** Handler `h` moved, and only its transaction's row with it. */
  lemma PendingAfter(s: State, s': State, h: nat)
    requires PendingHeld(s) && h < |s.handlers| == |s'.handlers|
    requires s'.handlers == s.handlers[h := s'.handlers[h]] && s'.handlers[h].tx == s.handlers[h].tx
    requires var tx := s.handlers[h].tx;
             && (forall t | t != tx :: (t in s'.rows <==> t in s.rows) && (t in s.rows ==> s'.rows[t] == s.rows[t]))
             && (!Holds(s.handlers[h].pc) && tx in s.rows ==> s'.rows == s.rows)
             && (Holds(s.handlers[h].pc) && tx in s'.rows && s'.rows[tx].status == Pending ==> Holds(s'.handlers[h].pc))
             && (tx !in s.rows && tx in s'.rows ==> Holds(s'.handlers[h].pc))
    ensures PendingHeld(s')
  {
    forall tx | tx in s'.rows && s'.rows[tx].status == Pending ensures exists k :: HeldBy(s', tx, k) {
      if tx == s.handlers[h].tx && Holds(s'.handlers[h].pc) {
        assert HeldBy(s', tx, h);
      } else {
        var k :| HeldBy(s, tx, k);
        assert HeldBy(s', tx, k);
      }
    }
  }

  /** Where every handler may finish, a row is pending only while some handler works on it: whatever ended without
      settling the transaction has released it, and it can be submitted again. */
  lemma {:induction false} PendingIsHeld(env: Env, claimant: map<string, string>, acts: seq<Action>)
    requires Allowed(env, Initial(claimant), acts) && forall i :: 0 <= i < |acts| ==> Smooth(acts[i])
    ensures PendingHeld(Exec(env, Initial(claimant), acts))
  {
    if acts != [] {
      var init := acts[..|acts| - 1];
      PendingIsHeld(env, claimant, init);
      InvRun(env, claimant, init);
      PendingStep(env, Exec(env, Initial(claimant), init), acts[|acts| - 1]);
    }
  }

  // ---- the points of a credit ------------------------------------------------------

  /** The credit came from a handler of that account and transaction, with that handler's points. */
  predicate FromHandler(s: State, e: Entry, h: nat) {
    && h < |s.handlers|
    && s.handlers[h].acct == e.acct && s.handlers[h].tx == e.tx && s.handlers[h].points == e.points
    && !s.handlers[h].pc.Insert? && !s.handlers[h].pc.Verify?
    && e.points >= MIN_TOPUP_POINTS && s.handlers[h].wallet == e.tx.sender
  }

  ghost predicate Verified(s: State, e: Entry) {
    exists h :: FromHandler(s, e, h)
  }

  ghost predicate PointsOk(s: State) {
    && (forall k :: 0 <= k < |s.log| ==> Verified(s, s.log[k]))
    && (forall h :: 0 <= h < |s.handlers| && s.handlers[h].pc.Credit? ==> s.handlers[h].points >= MIN_TOPUP_POINTS)
  }

  lemma StaysVerified(env: Env, s: State, a: Action, e: Entry)
    requires Enabled(env, s, a) && Verified(s, e)
    ensures Verified(Next(env, s, a), e)
  {
    var h :| FromHandler(s, e, h);
    assert FromHandler(Next(env, s, a), e, h);
  }

  lemma LogFootprint(env: Env, s: State, a: Action)
    requires Enabled(env, s, a)
    ensures Next(env, s, a).log == s.log
         || (a.ApplyCredit? && var hd := s.handlers[a.h]; Next(env, s, a).log == s.log + [Entry(hd.acct, hd.tx, hd.points)])
  {
  }

  lemma LogPoints(env: Env, s: State, a: Action)
    requires Inv(s) && PointsOk(s) && Enabled(env, s, a)
    ensures var s' := Next(env, s, a); forall k :: 0 <= k < |s'.log| ==> Verified(s', s'.log[k])
  {
    var s' := Next(env, s, a);
    LogFootprint(env, s, a);
    forall k | 0 <= k < |s'.log| ensures Verified(s', s'.log[k]) {
      if k >= |s.log| {
        assert HandlerOk(s, s.handlers[a.h]);
        assert FromHandler(s, s'.log[k], a.h);
      } else {
        assert s'.log[k] == s.log[k];
      }
      StaysVerified(env, s, a, s'.log[k]);
    }
  }

  lemma CreditPoints(env: Env, s: State, a: Action)
    requires PointsOk(s) && Enabled(env, s, a)
    ensures var hs := Next(env, s, a).handlers;
            forall h :: 0 <= h < |hs| && hs[h].pc.Credit? ==> hs[h].points >= MIN_TOPUP_POINTS
  {
  }

  lemma PointsStep(env: Env, s: State, a: Action)
    requires Inv(s) && PointsOk(s) && Enabled(env, s, a)
    ensures PointsOk(Next(env, s, a))
  {
    LogPoints(env, s, a);
    CreditPoints(env, s, a);
  }

  /** Every credit applied is worth what a handler verified, at least the minimum, for the sender that handler accepts. */
  lemma {:induction false} CreditsAreVerified(env: Env, claimant: map<string, string>, acts: seq<Action>)
    requires Allowed(env, Initial(claimant), acts)
    ensures PointsOk(Exec(env, Initial(claimant), acts))
  {
    if acts != [] {
      var init := acts[..|acts| - 1];
      CreditsAreVerified(env, claimant, init);
      InvRun(env, claimant, init);
      PointsStep(env, Exec(env, Initial(claimant), init), acts[|acts| - 1]);
    }
  }
}
