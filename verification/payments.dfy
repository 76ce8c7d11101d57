/**
 Exactly-once top-up (user_worker/src/payments.rs with the account's `credit`).

 Two stores take part: the D1 table of payment rows, whose primary key is the
 transaction hash and works as a lock, and the account objects, whose credit marker
 works as an idempotency key. Handlers run concurrently; every request to a store is
 one step, and may succeed, fail without effect, or take effect and lose its answer.
 A handler may die between any two steps. The chain answers freely, except that the
 sender of a transaction is fixed.
 */
module Payments {
  datatype Chain = Ethereum | Solana

  /** A transaction, identified by its hash; the chain fixes its sender. */
  datatype Tx = Tx(hash: string, chain: Chain, sender: string)

  datatype Status = Pending | Credited | Rejected

  datatype Row = Row(address: string, status: Status, points: int)

  /** Where a handler is: the request it is about to make, or its answer. */
  datatype Pc =
    | Insert            // take the row
    | Verify            // ask the chain
    | Credit            // ask the account to credit
    | AwaitCredit       // credited, the answer is on its way
    | Finalize          // write 'credited'
    | Reject            // write 'rejected'
    | Release(code: int) // delete the pending row
    | Done(code: int)

  /** `wallet` is the sender the handler accepts: the account itself on Ethereum, the wallet that was
      linked when the request came in on Solana. */
  datatype Handler = Handler(acct: string, tx: Tx, wallet: string, points: int, pc: Pc)

  datatype Entry = Entry(acct: string, tx: Tx, points: int)

  datatype State = State(
    rows: map<Tx, Row>,
    markers: set<(string, Tx)>,     // the `credit:tx:{hash}` keys, by account
    log: seq<Entry>,                // credits really applied, in order
    handlers: seq<Handler>,
    claimant: map<string, string>)  // the account a Solana wallet currently belongs to

  /** How a write to D1 ends. */
  datatype Write = Written | Failed | Lost

  datatype Verdict = Transient(code: int) | Intrinsic | WrongSender | Verified(points: int)

  const MIN_TOPUP_POINTS := 1_000

  datatype Action =
    | Start(acct: string, tx: Tx, wallet: string)
    | InsertRow(h: nat, w: Write)
    | Ask(h: nat, v: Verdict)
    | ApplyCredit(h: nat)
    | CreditFailed(h: nat)
    | CreditAnswered(h: nat, delivered: bool)
    | WriteRow(h: nat, w: Write)
    | Crash(h: nat)
    | Relink(wallet: string, acct: string)

  /** What the environment may do: lose the answer to a credit, move a Solana wallet to another account. */
  datatype Env = Env(lossy: bool, relinks: bool)

  predicate At(s: State, h: nat, pc: Pc) {
    h < |s.handlers| && s.handlers[h].pc == pc
  }

  predicate Enabled(env: Env, s: State, a: Action) {
    match a
    case Start(acct, tx, wallet) =>
      if tx.chain.Ethereum? then wallet == acct else wallet in s.claimant && s.claimant[wallet] == acct
    case InsertRow(h, _) => At(s, h, Insert)
    case Ask(h, v) =>
      && At(s, h, Verify)
      && (v.WrongSender? ==> s.handlers[h].wallet != s.handlers[h].tx.sender)
      && (v.Verified? ==> s.handlers[h].wallet == s.handlers[h].tx.sender && v.points >= MIN_TOPUP_POINTS)
      && (v.Transient? ==> v.code in {400, 425, 502})
    case ApplyCredit(h) => At(s, h, Credit)
    case CreditFailed(h) => At(s, h, Credit)
    case CreditAnswered(h, delivered) => At(s, h, AwaitCredit) && (delivered || env.lossy)
    case WriteRow(h, _) => h < |s.handlers| && (s.handlers[h].pc in {Finalize, Reject} || s.handlers[h].pc.Release?)
    case Crash(h) => h < |s.handlers| && !s.handlers[h].pc.Done?
    case Relink(_, _) => env.relinks
  }

  function Goto(s: State, h: nat, pc: Pc): State
    requires h < |s.handlers|
  {
    s.(handlers := s.handlers[h := s.handlers[h].(pc := pc)])
  }

  /** The row statement of a handler; none of the two updates looks at the status. */
  function Statement(rows: map<Tx, Row>, hd: Handler): map<Tx, Row> {
    if hd.tx !in rows then rows else
    match hd.pc
    case Finalize => rows[hd.tx := rows[hd.tx].(status := Credited, points := hd.points)]
    case Reject => rows[hd.tx := rows[hd.tx].(status := Rejected)]
    case Release(_) => if rows[hd.tx].status == Pending then rows - {hd.tx} else rows
    case _ => rows
  }

  function Answer(pc: Pc): int {
    match pc
    case Finalize => 200
    case Reject => 400
    case Release(code) => code
    case _ => 500
  }

  function InsertStep(s: State, h: nat, w: Write): State
    requires h < |s.handlers|
  {
    var hd := s.handlers[h];
    if hd.tx in s.rows && !w.Failed? then Goto(s, h, Done(409)) // the key constraint
    else
      var s' := if w.Failed? then s else s.(rows := s.rows[hd.tx := Row(hd.acct, Pending, 0)]);
      Goto(s', h, if w.Written? then Verify else Done(500))
  }

  function AskStep(s: State, h: nat, v: Verdict): State
    requires h < |s.handlers|
  {
    match v
    case Transient(code) => Goto(s, h, Release(code))
    case WrongSender => Goto(s, h, Release(403))
    case Intrinsic => Goto(s, h, Reject)
    case Verified(points) =>
      s.(handlers := s.handlers[h := s.handlers[h].(pc := Credit, points := points)])
  }

  /** The account's `credit`: a marker already set makes it a no-op. */
  function CreditStep(s: State, h: nat): State
    requires h < |s.handlers|
  {
    var hd := s.handlers[h];
    var key := (hd.acct, hd.tx);
    var s' := if key in s.markers then s
              else s.(markers := s.markers + {key}, log := s.log + [Entry(hd.acct, hd.tx, hd.points)]);
    Goto(s', h, AwaitCredit)
  }

  function WriteStep(s: State, h: nat, w: Write): State
    requires h < |s.handlers|
  {
    var hd := s.handlers[h];
    var s' := if w.Failed? then s else s.(rows := Statement(s.rows, hd));
    Goto(s', h, Done(Answer(hd.pc)))
  }

  function Next(env: Env, s: State, a: Action): State
    requires Enabled(env, s, a)
  {
    match a
    case Start(acct, tx, wallet) => s.(handlers := s.handlers + [Handler(acct, tx, wallet, 0, Insert)])
    case InsertRow(h, w) => InsertStep(s, h, w)
    case Ask(h, v) => AskStep(s, h, v)
    case ApplyCredit(h) => CreditStep(s, h)
    case CreditFailed(h) => Goto(s, h, Release(500))
    case CreditAnswered(h, delivered) => Goto(s, h, if delivered then Finalize else Release(500))
    case WriteRow(h, w) => WriteStep(s, h, w)
    case Crash(h) => Goto(s, h, Done(0))
    case Relink(wallet, acct) => s.(claimant := s.claimant[wallet := acct])
  }

  function Initial(claimant: map<string, string>): State {
    State(map[], {}, [], [], claimant)
  }

  /** `acts` is a run of the system from `s`. */
  ghost predicate Allowed(env: Env, s: State, acts: seq<Action>) {
    acts != [] ==>
      && Allowed(env, s, acts[..|acts| - 1])
      && Enabled(env, Exec(env, s, acts[..|acts| - 1]), acts[|acts| - 1])
  }

  ghost function Exec(env: Env, s: State, acts: seq<Action>): State {
    if acts == [] then s else
    var s' := Exec(env, s, acts[..|acts| - 1]);
    if Enabled(env, s', acts[|acts| - 1]) then Next(env, s', acts[|acts| - 1]) else s'
  }

  // ---- the invariant -------------------------------------------------------

  /** The handler owns the row of its transaction. */
  predicate Holds(pc: Pc) {
    !pc.Insert? && !pc.Done?
  }

  /** The handler's credit has been applied. */
  predicate Past(pc: Pc) {
    pc.AwaitCredit? || pc.Finalize? || pc == Done(200)
  }

  predicate HandlerOk(s: State, hd: Handler) {
    && (Holds(hd.pc) ==> hd.tx in s.rows && s.rows[hd.tx].status == Pending && s.rows[hd.tx].address == hd.acct)
    && (Past(hd.pc) ==> (hd.acct, hd.tx) in s.markers)
    && (hd.pc.Credit? || Past(hd.pc) ==> hd.wallet == hd.tx.sender)
    && (hd.tx.chain.Ethereum? ==> hd.wallet == hd.acct)
    && (hd.pc.Release? ==> hd.pc.code != 200)
  }

  /** No two handlers hold the same transaction's row. */
  predicate OneHolder(s: State) {
    forall i, j :: 0 <= i < j < |s.handlers| && Holds(s.handlers[i].pc) && Holds(s.handlers[j].pc)
                   ==> s.handlers[i].tx != s.handlers[j].tx
  }

  /** The log and the markers tell the same story, one entry each. */
  ghost predicate LogOk(s: State) {
    && (forall k :: 0 <= k < |s.log| ==> (s.log[k].acct, s.log[k].tx) in s.markers)
    && (forall i, j :: 0 <= i < j < |s.log| ==> (s.log[i].acct, s.log[i].tx) != (s.log[j].acct, s.log[j].tx))
    && (forall m | m in s.markers :: exists k :: 0 <= k < |s.log| && s.log[k].acct == m.0 && s.log[k].tx == m.1)
  }

  ghost predicate Inv(s: State) {
    && (forall h :: 0 <= h < |s.handlers| ==> HandlerOk(s, s.handlers[h]))
    && OneHolder(s)
    && LogOk(s)
    && (forall tx | tx in s.rows && s.rows[tx].status == Credited :: (s.rows[tx].address, tx) in s.markers)
    && (forall m | m in s.markers && m.1.chain.Ethereum? :: m.0 == m.1.sender)
  }

  /** `s'` differs from `s` in handler `h` and in stores that keep the other handlers' facts. */
  lemma HandlersOk(s: State, s': State, h: nat)
    requires Inv(s) && h < |s.handlers|
    requires |s'.handlers| == |s.handlers|
    requires s'.handlers == s.handlers[h := s'.handlers[h]] && HandlerOk(s', s'.handlers[h])
    requires s.markers <= s'.markers
    requires forall tx | tx in s.rows && tx != s.handlers[h].tx :: tx in s'.rows && s'.rows[tx] == s.rows[tx]
    requires Holds(s.handlers[h].pc) || s.handlers[h].tx !in s.rows || s'.rows == s.rows
    ensures forall k :: 0 <= k < |s'.handlers| ==> HandlerOk(s', s'.handlers[k])
  {
    forall k | 0 <= k < |s'.handlers| ensures HandlerOk(s', s'.handlers[k]) {
      if k != h {
        assert HandlerOk(s, s.handlers[k]);
        if Holds(s.handlers[k].pc) && Holds(s.handlers[h].pc) {
          assert s.handlers[k].tx != s.handlers[h].tx;
        }
      }
    }
  }

  lemma InvInsert(s: State, h: nat, w: Write)
    requires Inv(s) && At(s, h, Insert)
    ensures Inv(InsertStep(s, h, w))
  {
    var s' := InsertStep(s, h, w);
    assert HandlerOk(s, s.handlers[h]);
    HandlersOk(s, s', h);
    assert OneHolder(s') by {
      forall k | 0 <= k < |s.handlers| && Holds(s.handlers[k].pc) ensures s.handlers[k].tx in s.rows {
        assert HandlerOk(s, s.handlers[k]);
      }
    }
  }

  lemma LogCredit(s: State, h: nat)
    requires LogOk(s) && h < |s.handlers|
    ensures LogOk(CreditStep(s, h))
  {
    var s' := CreditStep(s, h);
    var key := (s.handlers[h].acct, s.handlers[h].tx);
    forall m | m in s'.markers
      ensures exists k :: 0 <= k < |s'.log| && s'.log[k].acct == m.0 && s'.log[k].tx == m.1
    {
      if m in s.markers {
        var k :| 0 <= k < |s.log| && s.log[k].acct == m.0 && s.log[k].tx == m.1;
        assert s'.log[k] == s.log[k];
      } else {
        assert s'.log[|s.log|] == Entry(key.0, key.1, s.handlers[h].points);
      }
    }
  }

  lemma InvCredit(s: State, h: nat)
    requires Inv(s) && At(s, h, Credit)
    ensures Inv(CreditStep(s, h))
  {
    assert HandlerOk(s, s.handlers[h]);
    LogCredit(s, h);
    HandlersOk(s, CreditStep(s, h), h);
  }

  lemma InvWrite(s: State, h: nat, w: Write)
    requires Inv(s) && h < |s.handlers| && (s.handlers[h].pc in {Finalize, Reject} || s.handlers[h].pc.Release?)
    ensures Inv(WriteStep(s, h, w))
  {
    assert HandlerOk(s, s.handlers[h]);
    HandlersOk(s, WriteStep(s, h, w), h);
  }

  /** A handler that moves on without writing, and takes no row it did not hold. */
  lemma InvMove(s: State, h: nat, hd: Handler)
    requires Inv(s) && h < |s.handlers| && HandlerOk(s, hd)
    requires hd.tx == s.handlers[h].tx && (Holds(hd.pc) ==> Holds(s.handlers[h].pc))
    ensures Inv(s.(handlers := s.handlers[h := hd]))
  {
  }

  lemma InvStart(s: State, acct: string, tx: Tx, wallet: string)
    requires Inv(s) && (tx.chain.Ethereum? ==> wallet == acct)
    ensures Inv(s.(handlers := s.handlers + [Handler(acct, tx, wallet, 0, Insert)]))
  {
  }

  lemma MoveOk(env: Env, s: State, a: Action)
    requires Enabled(env, s, a) && (a.Ask? || a.CreditFailed? || a.CreditAnswered? || a.Crash?)
    requires HandlerOk(s, s.handlers[a.h])
    ensures var s' := Next(env, s, a);
            && |s'.handlers| == |s.handlers|
            && s' == s.(handlers := s.handlers[a.h := s'.handlers[a.h]])
            && HandlerOk(s, s'.handlers[a.h])
            && s'.handlers[a.h].tx == s.handlers[a.h].tx
            && (Holds(s'.handlers[a.h].pc) ==> Holds(s.handlers[a.h].pc))
  {
  }

  lemma InvStep(env: Env, s: State, a: Action)
    requires Inv(s) && Enabled(env, s, a)
    ensures Inv(Next(env, s, a))
  {
    if a.Start? {
      InvStart(s, a.acct, a.tx, a.wallet);
    } else if a.InsertRow? {
      InvInsert(s, a.h, a.w);
    } else if a.ApplyCredit? {
      InvCredit(s, a.h);
    } else if a.WriteRow? {
      InvWrite(s, a.h, a.w);
    } else if !a.Relink? {
      MoveOk(env, s, a);
      InvMove(s, a.h, Next(env, s, a).handlers[a.h]);
    }
  }

  lemma {:induction false} InvRun(env: Env, claimant: map<string, string>, acts: seq<Action>)
    requires Allowed(env, Initial(claimant), acts)
    ensures Inv(Exec(env, Initial(claimant), acts))
  {
    if acts != [] {
      InvRun(env, claimant, acts[..|acts| - 1]);
      InvStep(env, Exec(env, Initial(claimant), acts[..|acts| - 1]), acts[|acts| - 1]);
    }
  }

  // ---- what every run keeps ------------------------------------------------

  /** In every reachable state: one holder per transaction, a 'credited' row's account has been credited,
      a handler that answered 200 has its credit applied, and an account applies a hash at most once. */
  lemma TopupSafety(env: Env, claimant: map<string, string>, acts: seq<Action>)
    requires Allowed(env, Initial(claimant), acts)
    ensures var s := Exec(env, Initial(claimant), acts);
            && OneHolder(s)
            && (forall tx | tx in s.rows && s.rows[tx].status == Credited :: (s.rows[tx].address, tx) in s.markers)
            && (forall h | 0 <= h < |s.handlers| && s.handlers[h].pc == Done(200) ::
                  exists k :: 0 <= k < |s.log| && s.log[k].acct == s.handlers[h].acct && s.log[k].tx == s.handlers[h].tx)
            && (forall i, j :: 0 <= i < j < |s.log| ==> (s.log[i].acct, s.log[i].tx) != (s.log[j].acct, s.log[j].tx))
  {
    InvRun(env, claimant, acts);
    var s := Exec(env, Initial(claimant), acts);
    forall h | 0 <= h < |s.handlers| && s.handlers[h].pc == Done(200)
      ensures exists k :: 0 <= k < |s.log| && s.log[k].acct == s.handlers[h].acct && s.log[k].tx == s.handlers[h].tx
    {
      assert HandlerOk(s, s.handlers[h]);
      assert (s.handlers[h].acct, s.handlers[h].tx) in s.markers;
    }
  }

  /** A settled row is final, although neither update asks for its status. */
  predicate SettledKept(s: State, s': State) {
    forall tx | tx in s.rows && s.rows[tx].status != Pending :: tx in s'.rows && s'.rows[tx] == s.rows[tx]
  }

  lemma SettledStep(env: Env, s: State, a: Action)
    requires Inv(s) && Enabled(env, s, a)
    ensures SettledKept(s, Next(env, s, a))
  {
    if a.WriteRow? {
      assert HandlerOk(s, s.handlers[a.h]);
    }
  }

  lemma {:induction false} SettledForever(env: Env, claimant: map<string, string>, acts: seq<Action>, n: nat)
    requires Allowed(env, Initial(claimant), acts) && n <= |acts|
    ensures SettledKept(Exec(env, Initial(claimant), acts[..n]), Exec(env, Initial(claimant), acts))
  {
    if n == |acts| {
      assert acts[..n] == acts;
    } else {
      var init := acts[..|acts| - 1];
      assert init[..n] == acts[..n];
      SettledForever(env, claimant, init, n);
      InvRun(env, claimant, init);
      SettledStep(env, Exec(env, Initial(claimant), init), acts[|acts| - 1]);
    }
  }

  // ---- at most once over all accounts --------------------------------------

  predicate AtMostOnce(s: State) {
    forall i, j :: 0 <= i < j < |s.log| ==> s.log[i].tx != s.log[j].tx
  }

  /** On Ethereum only the sender's own account can be credited, whatever is lost or relinked. */
  lemma EthereumOnce(env: Env, claimant: map<string, string>, acts: seq<Action>)
    requires Allowed(env, Initial(claimant), acts)
    ensures var log := Exec(env, Initial(claimant), acts).log;
            forall i, j :: 0 <= i < j < |log| && log[i].tx.chain.Ethereum? ==> log[i].tx != log[j].tx
  {
    InvRun(env, claimant, acts);
    var s := Exec(env, Initial(claimant), acts);
    assert forall k | 0 <= k < |s.log| && s.log[k].tx.chain.Ethereum? :: (s.log[k].acct, s.log[k].tx) in s.markers;
  }

  /** The handler's wallet belongs to its account. */
  predicate OwnsWallet(claimant: map<string, string>, hd: Handler) {
    hd.tx.chain.Solana? ==> hd.wallet in claimant && claimant[hd.wallet] == hd.acct
  }

  /** Wallets stay where they are: an applied Solana credit went to the sender's owner. */
  ghost predicate StableInv(s: State, claimant: map<string, string>) {
    && s.claimant == claimant
    && (forall h :: 0 <= h < |s.handlers| ==> OwnsWallet(claimant, s.handlers[h]))
    && (forall m | m in s.markers && m.1.chain.Solana? :: m.1.sender in claimant && claimant[m.1.sender] == m.0)
  }

  /** What a step may touch: its handler's progress, and one marker when a verified handler credits. */
  lemma Footprint(env: Env, s: State, a: Action)
    requires Enabled(env, s, a) && !a.Start? && !a.Relink?
    ensures var s' := Next(env, s, a);
            && |s'.handlers| == |s.handlers| && s'.claimant == s.claimant
            && s'.handlers == s.handlers[a.h := s.handlers[a.h].(pc := s'.handlers[a.h].pc, points := s'.handlers[a.h].points)]
            && s'.markers == s.markers + if a.ApplyCredit? then {(s.handlers[a.h].acct, s.handlers[a.h].tx)} else {}
  {
  }

  lemma StableStep(env: Env, s: State, a: Action, claimant: map<string, string>)
    requires Inv(s) && StableInv(s, claimant) && !env.relinks && Enabled(env, s, a)
    ensures StableInv(Next(env, s, a), claimant)
  {
    if !a.Start? {
      Footprint(env, s, a);
      assert HandlerOk(s, s.handlers[a.h]) && OwnsWallet(claimant, s.handlers[a.h]);
    }
  }

  ghost function CreditedTxs(s: State): set<Tx> {
    set m | m in s.markers :: m.1
  }

  /** A credited transaction's handler is past crediting, and releases nothing. */
  predicate Behind(credited: set<Tx>, hd: Handler) {
    hd.tx in credited ==> !(hd.pc.Verify? || hd.pc.Credit? || hd.pc.Reject? || hd.pc.Release?)
  }

  /** Answers are never lost: a credited transaction keeps its row, and nobody is about to credit it again. */
  ghost predicate LosslessInv(s: State) {
    && CreditedTxs(s) <= s.rows.Keys
    && (forall h :: 0 <= h < |s.handlers| ==> Behind(CreditedTxs(s), s.handlers[h]))
  }

  /** The moving handler itself. */
  lemma BehindStep(env: Env, s: State, a: Action)
    requires LosslessInv(s) && !env.lossy && Enabled(env, s, a) && !a.Start? && !a.Relink?
    requires HandlerOk(s, s.handlers[a.h])
    ensures var s', tx := Next(env, s, a), s.handlers[a.h].tx;
            && Behind(CreditedTxs(s) + (if a.ApplyCredit? then {tx} else {}), s'.handlers[a.h])
            && (tx in CreditedTxs(s) || a.ApplyCredit? ==> tx in s'.rows)
            && (forall t | t in s.rows && t != tx :: t in s'.rows)
  {
    assert Behind(CreditedTxs(s), s.handlers[a.h]);
  }

  lemma LosslessStep(env: Env, s: State, a: Action)
    requires Inv(s) && LosslessInv(s) && !env.lossy && Enabled(env, s, a)
    ensures LosslessInv(Next(env, s, a))
  {
    if !a.Start? && !a.Relink? {
      var s', tx := Next(env, s, a), s.handlers[a.h].tx;
      Footprint(env, s, a);
      assert HandlerOk(s, s.handlers[a.h]);
      BehindStep(env, s, a);
      assert CreditedTxs(s') == CreditedTxs(s) + if a.ApplyCredit? then {tx} else {} by {
        assert a.ApplyCredit? ==> (s.handlers[a.h].acct, tx) in s'.markers;
      }
      forall k | 0 <= k < |s'.handlers| && k != a.h ensures Behind(CreditedTxs(s'), s'.handlers[k]) {
        assert Behind(CreditedTxs(s), s.handlers[k]) && HandlerOk(s, s.handlers[k]);
      }
    }
  }

  lemma {:induction false} SafeRun(env: Env, claimant: map<string, string>, acts: seq<Action>)
    requires Allowed(env, Initial(claimant), acts)
    ensures var s := Exec(env, Initial(claimant), acts);
            && (!env.relinks ==> StableInv(s, claimant))
            && (!env.lossy ==> LosslessInv(s) && AtMostOnce(s))
  {
    if acts != [] {
      var init, a := acts[..|acts| - 1], acts[|acts| - 1];
      var s := Exec(env, Initial(claimant), init);
      SafeRun(env, claimant, init);
      InvRun(env, claimant, init);
      if !env.relinks {
        StableStep(env, s, a, claimant);
      }
      if !env.lossy {
        LosslessStep(env, s, a);
      }
    }
  }

  lemma StableOnce(s: State, claimant: map<string, string>)
    requires Inv(s) && StableInv(s, claimant)
    ensures AtMostOnce(s)
  {
    forall i, j | 0 <= i < j < |s.log| ensures s.log[i].tx != s.log[j].tx {
      assert (s.log[i].acct, s.log[i].tx) in s.markers && (s.log[j].acct, s.log[j].tx) in s.markers;
    }
  }

  lemma ExecStep(env: Env, s: State, acts: seq<Action>, a: Action)
    requires Allowed(env, s, acts) && Enabled(env, Exec(env, s, acts), a)
    ensures Allowed(env, s, acts + [a]) && Exec(env, s, acts + [a]) == Next(env, Exec(env, s, acts), a)
  {
    assert (acts + [a])[..|acts|] == acts;
  }

  /** A handler runs from `Start` to an applied credit. */
  lemma CreditRun(env: Env, s0: State, acts: seq<Action>, acct: string, tx: Tx, wallet: string) returns (more: seq<Action>)
    requires Allowed(env, s0, acts)
    requires var s := Exec(env, s0, acts);
             && Enabled(env, s, Start(acct, tx, wallet)) && wallet == tx.sender
             && tx !in s.rows && (acct, tx) !in s.markers
    ensures var s, s' := Exec(env, s0, acts), Exec(env, s0, more);
            && Allowed(env, s0, more)
            && s'.rows == s.rows[tx := Row(acct, Pending, 0)]
            && s'.markers == s.markers + {(acct, tx)}
            && s'.log == s.log + [Entry(acct, tx, MIN_TOPUP_POINTS)]
            && s'.handlers == s.handlers + [Handler(acct, tx, wallet, MIN_TOPUP_POINTS, AwaitCredit)]
            && s'.claimant == s.claimant
  {
    var s := Exec(env, s0, acts);
    var h := |s.handlers|;
    more := acts + [Start(acct, tx, wallet)];
    ExecStep(env, s0, acts, Start(acct, tx, wallet));
    ExecStep(env, s0, more, InsertRow(h, Written));
    more := more + [InsertRow(h, Written)];
    ExecStep(env, s0, more, Ask(h, Verified(MIN_TOPUP_POINTS)));
    more := more + [Ask(h, Verified(MIN_TOPUP_POINTS))];
    ExecStep(env, s0, more, ApplyCredit(h));
    more := more + [ApplyCredit(h)];
  }

  /** With both a lost answer and a moved wallet, one transaction is credited to two accounts: the first
      handler credits, hears nothing and releases the row; the wallet changes hands; its new owner submits. */
  lemma DoubleCredit(env: Env) returns (claimant: map<string, string>, acts: seq<Action>)
    requires env.lossy && env.relinks
    ensures Allowed(env, Initial(claimant), acts) && !AtMostOnce(Exec(env, Initial(claimant), acts))
  {
    var tx := Tx("signature", Solana, "wallet");
    claimant := map["wallet" := "first"];
    var s0 := Initial(claimant);
    acts := CreditRun(env, s0, [], "first", tx, "wallet");
    ExecStep(env, s0, acts, CreditAnswered(0, false));
    acts := acts + [CreditAnswered(0, false)];
    ExecStep(env, s0, acts, WriteRow(0, Written));
    acts := acts + [WriteRow(0, Written)];
    ExecStep(env, s0, acts, Relink("wallet", "second"));
    acts := acts + [Relink("wallet", "second")];
    acts := CreditRun(env, s0, acts, "second", tx, "wallet");
    var log := Exec(env, s0, acts).log;
    assert log[0].tx == log[1].tx;
  }

  /** Every run credits every transaction at most once, over all accounts, if and only if the environment
      cannot both lose an answer and move a wallet. */
  lemma OnceIffStableOrLossless(env: Env)
    ensures (forall claimant, acts | Allowed(env, Initial(claimant), acts) ::
               AtMostOnce(Exec(env, Initial(claimant), acts)))
            <==> !(env.lossy && env.relinks)
  {
    if env.lossy && env.relinks {
      var claimant, acts := DoubleCredit(env);
    } else {
      forall claimant, acts | Allowed(env, Initial(claimant), acts)
        ensures AtMostOnce(Exec(env, Initial(claimant), acts))
      {
        SafeRun(env, claimant, acts);
        InvRun(env, claimant, acts);
        if !env.relinks {
          StableOnce(Exec(env, Initial(claimant), acts), claimant);
        }
      }
    }
  }
}
