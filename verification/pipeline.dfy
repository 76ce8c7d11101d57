/**
 The stages of the embedding pipeline as steps over everything in flight (embed/src/cli.rs:
 `fetch_batch`, `convert_image`, `infer`, `record`).

 `messages` holds all that is in a channel or inside a stage, each in the order it came into
 its phase. The database, the downloads, the decoders and the models are parameters.
 */
module Pipelines {
  import opened Wrappers
  import opened Phases
  import opened Batches
  import opened Messages

  const COALESCE := 16

  /** What the stages use of the gate: permits out, and images that count as throughput. */
  class Gate {
    var inFlight: nat
    var completed: nat

    constructor ()
      ensures inFlight == 0 && completed == 0
    {
      inFlight, completed := 0, 0;
    }

    method Acquire(n: nat) returns (t: Ticket)
      modifies this`inFlight
      ensures t == Ticket(n) && inFlight == old(inFlight) + n
    {
      inFlight := inFlight + n;
      t := Ticket(n);
    }

    method Release(t: Ticket)
      requires t.len <= inFlight
      modifies this`inFlight
      ensures inFlight == old(inFlight) - t.len
    {
      inFlight := inFlight - t.len;
    }

    /** Returns `n` permits as completed; the rest stay with the ticket. */
    method CompleteN(t: Ticket, n: nat) returns (rest: Ticket)
      requires n <= t.len <= inFlight
      modifies this
      ensures rest == Ticket(t.len - n) && inFlight == old(inFlight) - n && completed == old(completed) + n
    {
      inFlight := inFlight - n;
      completed := completed + n;
      rest := t.Split(n).1;
    }
  }

  class Pipeline {
    const meters: Meters
    const gate: Gate
    var messages: seq<Message>

    /** As many images, permits and trackers, and all trackers in the message's phase. */
    ghost predicate MessageOk(m: Message)
      reads meters, meters.live
    {
      Aligned(m) && forall t <- m.trackers :: t in meters.live && t.phase == m.phase
    }

    ghost predicate TrackerOk(t: Tracker)
      reads this
    {
      Sum(ByTracker(t), messages) == 1
    }

    /** Every tracker is with exactly one image, and the permits out are those in the messages. */
    ghost predicate Valid()
      reads this, meters, meters.live, gate
    {
      && meters.Valid()
      && gate.inFlight == Sum(ByTicket(), messages)
      && (forall t <- meters.live :: TrackerOk(t))
      && forall i :: 0 <= i < |messages| ==> MessageOk(messages[i])
    }

    constructor ()
      ensures Valid() && messages == [] && fresh(meters) && fresh(gate)
    {
      meters := new Meters();
      gate := new Gate();
      messages := [];
    }

    // ---- moving one message ----------------------------------------------------

    /** Message `i` goes into phase `next` with the work done so far. */
    method Advance(i: nat, next: Phase, work: Work, now: nat)
      requires Valid() && i < |messages|
      requires Aligned(messages[i].(phase := next, work := work))
      modifies this, meters, messages[i].trackers
      ensures Valid() && meters.live == old(meters.live)
      ensures messages == Without(old(messages), i) + [old(messages)[i].(phase := next, work := work)]
      ensures |meters.stays| == old(|meters.stays|) + |old(messages)[i].trackers|
    {
      var m := messages[i];
      var rest := Without(messages, i);
      var moved := m.(phase := next, work := work);
      forall k | 0 <= k < |rest| ensures MessageOk(rest[k]) && forall t <- m.trackers :: t !in rest[k].trackers {
        forall t | t in m.trackers ensures t !in rest[k].trackers {
          assert TrackerOk(t);
          Apart(t, messages, i, rest[k]);
        }
      }
      meters.EnterAll(m.trackers, next, now);
      SumMoved(ByTicket(), messages, i, moved);
      forall t ensures Sum(ByTracker(t), rest + [moved]) == Sum(ByTracker(t), messages) {
        SumMoved(ByTracker(t), messages, i, moved);
      }
      messages := rest + [moved];
    }

    /** Message `i` leaves the pipeline, `done` of its images as completed: its trackers and its permits go. */
    method Leave(i: nat, done: nat, now: nat)
      requires Valid() && i < |messages| && done <= messages[i].ticket.len
      modifies this, meters, gate
      ensures Valid() && messages == Without(old(messages), i)
      ensures gate.completed == old(gate.completed) + done
      ensures |meters.stays| == old(|meters.stays|) + |old(messages)[i].trackers|
    {
      var m := messages[i];
      var rest := Without(messages, i);
      forall k | 0 <= k < |rest| ensures MessageOk(rest[k]) && forall t <- m.trackers :: t !in rest[k].trackers {
        forall t | t in m.trackers ensures t !in rest[k].trackers {
          assert TrackerOk(t);
          Apart(t, messages, i, rest[k]);
        }
      }
      SumWithout(ByTicket(), messages, i);
      forall t | t in meters.live
        ensures Sum(ByTracker(t), messages) == Sum(ByTracker(t), rest) + Count(t, m.trackers)
        ensures t in m.trackers <==> Count(t, m.trackers) >= 1
      {
        SumWithout(ByTracker(t), messages, i);
        CountMember(t, m.trackers);
      }
      TrackersDistinct(i);
      meters.DropAll(m.trackers, now);
      var unused := gate.CompleteN(m.ticket, done);
      gate.Release(unused);
      messages := rest;
    }

    lemma TrackersDistinct(i: nat)
      requires Valid() && i < |messages|
      ensures Distinct(messages[i].trackers)
    {
      var list := messages[i].trackers;
      forall j, k | 0 <= j < k < |list| ensures list[j] != list[k] {
        assert MessageOk(messages[i]) && TrackerOk(list[j]);
        SumWithout(ByTracker(list[j]), messages, i);
        CountDistinct(list, j, k);
      }
    }

    // ---- fetch_batch -----------------------------------------------------------

    /**
     A claim of `granted` permits: each row found becomes an image with one permit and one
     tracker; the other permits go back without a stay. A failed query takes nothing in.
     */
    method FetchBatch(granted: nat, answer: Result<seq<Record>>, now: nat) returns (taken: seq<Tracker>)
      requires Valid() && (answer.Ok? ==> |answer.value| <= granted)
      modifies this, meters, gate`inFlight
      ensures Valid() && gate.inFlight == old(gate.inFlight) + |taken|
      ensures answer.Ok? ==>
                && |taken| == |answer.value| && messages == old(messages) + Claimed(answer.value, taken)
                && meters.stays == old(meters.stays)
      ensures answer.Err? ==> taken == [] && messages == old(messages)
    {
      var ticket := gate.Acquire(granted);
      ghost var had := meters.live;
      taken := meters.StartAll(granted, Claim, now);
      match answer
      case Err(_) =>
        meters.DropAll(taken, now);
        gate.Release(ticket);
        taken := [];
      case Ok(records) =>
        taken := TakeRows(ticket, records, taken, had);
    }

    /** The messages hold the trackers `had`, each once. */
    ghost predicate HeldBy(ms: seq<Message>, had: set<Tracker>)
      reads meters, meters.live
    {
      && (forall t <- had :: Sum(ByTracker(t), ms) == 1)
      && (forall i :: 0 <= i < |ms| ==> MessageOk(ms[i]))
      && (forall i, j :: 0 <= i < |ms| && 0 <= j < |ms[i].trackers| ==> ms[i].trackers[j] in had)
    }

    /** The rows of a claim come in; the permits and trackers beyond them go back. */
    method TakeRows(ticket: Ticket, records: seq<Record>, trackers: seq<Tracker>, ghost had: set<Tracker>)
      returns (taken: seq<Tracker>)
      requires |records| <= |trackers| == ticket.len && Distinct(trackers)
      requires meters.Valid() && gate.inFlight == Sum(ByTicket(), messages) + ticket.len
      requires meters.live == had + (set t | t in trackers)
      requires forall t <- trackers :: t.phase == Claim && t !in had
      requires HeldBy(messages, had)
      modifies this, meters, gate`inFlight
      ensures Valid() && |taken| == |records| && messages == old(messages) + Claimed(records, taken)
      ensures gate.inFlight == old(gate.inFlight) - ticket.len + |records| && meters.stays == old(meters.stays)
    {
      taken := KeepFirst(|records|, trackers, had);
      var claimed, rest := HandOut(ticket, records, taken);
      gate.Release(rest);
      TakeIn(claimed, had, records, taken);
    }

    method TakeIn(claimed: seq<Message>, ghost had: set<Tracker>, ghost records: seq<Record>, ghost trackers: seq<Tracker>)
      requires |records| == |trackers| && Distinct(trackers) && claimed == Claimed(records, trackers)
      requires meters.Valid() && gate.inFlight == Sum(ByTicket(), messages) + |records|
      requires meters.live == had + (set t | t in trackers)
      requires forall t <- trackers :: t.phase == Claim && t !in had
      requires HeldBy(messages, had)
      modifies this`messages
      ensures Valid() && messages == old(messages) + claimed
    {
      messages := messages + claimed;
      TakenIn(old(messages), had, records, trackers);
    }

    /** The trackers beyond the first `n` are discarded. */
    method KeepFirst(n: nat, trackers: seq<Tracker>, ghost had: set<Tracker>) returns (kept: seq<Tracker>)
      requires n <= |trackers| && Distinct(trackers) && meters.Valid()
      requires meters.live == had + (set t | t in trackers)
      requires forall t <- trackers :: t.phase == Claim && t !in had
      requires HeldBy(messages, had)
      modifies meters
      ensures meters.Valid() && kept == trackers[..n] && meters.live == had + (set t | t in kept)
      ensures HeldBy(messages, had) && meters.stays == old(meters.stays)
    {
      meters.DiscardAll(trackers[n..]);
      kept := trackers[..n];
      KeptTrackers(had, trackers, n);
    }

    /** One permit of the ticket for each record. */
    static method HandOut(ticket: Ticket, records: seq<Record>, trackers: seq<Tracker>)
      returns (claimed: seq<Message>, rest: Ticket)
      requires |records| == |trackers| <= ticket.len
      ensures claimed == Claimed(records, trackers) && rest.len == ticket.len - |records|
    {
      claimed, rest := [], ticket;
      for k := 0 to |records|
        invariant claimed == Claimed(records[..k], trackers[..k])
        invariant rest.len == ticket.len - k
      {
        var (one, others) := rest.Split(1);
        assert records[..k + 1][..k] == records[..k] && trackers[..k + 1][..k] == trackers[..k];
        claimed := claimed + [Message(Claim, Named(records[k].0, records[k].1), one, [trackers[k]])];
        rest := others;
      }
      assert records[..|records|] == records && trackers[..|records|] == trackers;
    }

    /** The pipeline is in order again once fresh trackers came in with their records. */
    lemma TakenIn(before: seq<Message>, had: set<Tracker>, records: seq<Record>, trackers: seq<Tracker>)
      requires |records| == |trackers| && Distinct(trackers)
      requires messages == before + Claimed(records, trackers)
      requires meters.Valid() && gate.inFlight == Sum(ByTicket(), before) + |records|
      requires meters.live == had + (set t | t in trackers)
      requires forall t <- trackers :: t.phase == Claim && t !in had
      requires HeldBy(before, had)
      ensures Valid()
    {
      ClaimedTickets(records, trackers);
      SumAppend(ByTicket(), before, Claimed(records, trackers));
      forall t | t in meters.live ensures TrackerOk(t) {
        if t in trackers {
          Unheld(t, before);
        }
        HeldOnce(t, before, records, trackers);
      }
      forall i | 0 <= i < |messages| ensures MessageOk(messages[i]) {
        if i >= |before| {
          assert messages[i] == Claimed(records, trackers)[i - |before|];
          assert trackers[i - |before|] in trackers;
        }
      }
    }

    static lemma KeptTrackers(had: set<Tracker>, trackers: seq<Tracker>, n: nat)
      requires n <= |trackers| && Distinct(trackers) && forall t <- trackers :: t !in had
      ensures had + (set t | t in trackers) - (set t | t in trackers[n..]) == had + set t | t in trackers[..n]
    {
      assert trackers == trackers[..n] + trackers[n..];
    }

    // ---- convert_image ---------------------------------------------------------

    method StartDownload(i: nat, now: nat)
      requires Valid() && i < |messages| && messages[i].phase == Claim
      modifies this, meters, messages[i].trackers
      ensures Valid()
      ensures messages == Without(old(messages), i) + [old(messages)[i].(phase := Download)]
    {
      Advance(i, Download, messages[i].work, now);
    }

    /** `buf` is none when the read failed. */
    method FinishDownload(i: nat, buf: Option<string>, now: nat)
      requires Valid() && i < |messages| && messages[i].phase == Download
      modifies this, meters, messages[i].trackers
      ensures Valid()
      ensures messages == Without(old(messages), i)
                        + [old(messages)[i].(phase := DecodeQueue, work := Bytes(old(messages)[i].work.id, buf))]
    {
      assert MessageOk(messages[i]);
      Advance(i, DecodeQueue, Bytes(messages[i].work.id, buf), now);
    }

    method StartDecode(i: nat, now: nat)
      requires Valid() && i < |messages| && messages[i].phase == DecodeQueue
      modifies this, meters, messages[i].trackers
      ensures Valid()
      ensures messages == Without(old(messages), i) + [old(messages)[i].(phase := Decode)]
    {
      Advance(i, Decode, messages[i].work, now);
    }

    /** `decode` answers none when one of the three conversions fails; without bytes it is not called. */
    method FinishDecode(i: nat, decode: string -> Option<Pixels>, now: nat)
      requires Valid() && i < |messages| && messages[i].phase == Decode
      modifies this, meters, messages[i].trackers
      ensures Valid()
      ensures var m := old(messages)[i];
              var image := if m.work.buf.Some? then decode(m.work.buf.value) else None;
              messages == Without(old(messages), i)
                        + [m.(phase := InferQueue, work := Images([(m.work.id, image)]))]
    {
      var work := messages[i].work;
      assert MessageOk(messages[i]);
      var image := if work.buf.Some? then decode(work.buf.value) else None;
      Advance(i, InferQueue, Images([(work.id, image)]), now);
    }

    // ---- infer -----------------------------------------------------------------

    lemma AllAligned()
      requires Valid()
      ensures forall i :: 0 <= i < |messages| ==> Aligned(messages[i])
    {
      assert forall i :: 0 <= i < |messages| ==> MessageOk(messages[i]);
    }

    lemma {:induction false} GatherOk(ms: seq<Message>, p: Phase, n: nat)
      requires n >= 1 && FirstIn(ms, p) < |ms|
      requires forall i :: 0 <= i < |ms| ==> MessageOk(ms[i])
      ensures forall i :: 0 <= i < |Gather(ms, p, n)| ==> MessageOk(Gather(ms, p, n)[i])
    {
      if n > 1 {
        GatherOk(ms, p, n - 1);
        var before := Gather(ms, p, n - 1);
        if CanJoin(before) {
          JoinedOk(before);
        }
      }
    }

    lemma JoinedOk(ms: seq<Message>)
      requires CanJoin(ms) && forall i :: 0 <= i < |ms| ==> MessageOk(ms[i])
      ensures forall i :: 0 <= i < |ms| - 1 ==> MessageOk(JoinNext(ms)[i])
    {
      var front, last := ms[..|ms| - 1], ms[|ms| - 1];
      var next := front[FirstIn(front, last.phase)];
      assert MessageOk(last) && MessageOk(next);
      JoinAligned(last, next);
    }

    /** A gathered batch replaces its parts. */
    method PutBatch(p: Phase, n: nat, gathered: seq<Message>)
      requires Valid() && n >= 1 && FirstIn(messages, p) < |messages| && gathered == Gather(messages, p, n)
      modifies this`messages
      ensures Valid() && messages == gathered && SameIds(messages, old(messages))
    {
      AllAligned();
      GatherOk(messages, p, n);
      GatherKeeps(messages, p, n);
      GatherSum(ByTicket(), messages, p, n);
      forall t | t in meters.live ensures Sum(ByTracker(t), gathered) == 1 {
        assert TrackerOk(t);
        GatherTrackers(t, messages, p, n);
      }
      messages := gathered;
    }

    /**
     A batch: the first decoded image and whatever else is ready, up to the batch size. Each
     stage it passes moves all its trackers, and it comes out with the results of the models.
     */
    method InferStep(models: Models, batchSize: nat, ready: nat, now: nat) returns (n: nat)
      requires Valid() && FirstIn(messages, InferQueue) < |messages|
      modifies this, meters, meters.live
      ensures Valid() && 1 <= n && SameIds(messages, old(messages))
      ensures var g := Gather(old(messages), InferQueue, n);
              && Last(g).work.Images?
              && messages == WithLast(g, Last(g).(phase := RecordQueue,
                                                  work := Results(InferBatch(models, Last(g).work.decoded))))
              && (batchSize <= |Ids(Last(g).work)| || ready < n || !CanJoin(g))
    {
      var batch;
      n, batch := GatherBatch(messages, batchSize, ready);
      PutBatch(InferQueue, n, batch);
      RunBatch(models, now);
    }

    /** The batch gathered last goes through the models. */
    method RunBatch(models: Models, now: nat)
      requires Valid() && messages != [] && Last(messages).phase == InferQueue && Last(messages).work.Images?
      modifies this, meters, Last(messages).trackers
      ensures Valid() && SameIds(messages, old(messages))
      ensures messages == WithLast(old(messages), Last(old(messages)).(
                            phase := RecordQueue, work := Results(InferBatch(models, Last(old(messages)).work.decoded))))
    {
      assert MessageOk(Last(messages));
      var decoded := Last(messages).work.decoded;
      AdvanceLast(Infer, Images(decoded), now);
      InferSameWork(models, decoded);
      AdvanceLast(RecordQueue, Results(InferBatch(models, decoded)), now);
    }

    /** The batch just gathered goes into phase `next`. */
    method AdvanceLast(next: Phase, work: Work, now: nat)
      requires Valid() && messages != [] && SameWork(work, Last(messages).work)
      requires Aligned(Last(messages).(phase := next, work := work))
      modifies this, meters, Last(messages).trackers
      ensures Valid() && SameIds(messages, old(messages)) && meters.live == old(meters.live)
      ensures messages == WithLast(old(messages), Last(old(messages)).(phase := next, work := work))
    {
      ghost var moved := Last(messages).(phase := next, work := work);
      LastIds(messages, moved);
      assert MessageOk(Last(messages));
      Advance(|messages| - 1, next, work, now);
      assert messages == WithLast(old(messages), moved);
    }

    static method GatherBatch(ms: seq<Message>, batchSize: nat, ready: nat) returns (n: nat, batch: seq<Message>)
      requires FirstIn(ms, InferQueue) < |ms|
      ensures 1 <= n && batch == Gather(ms, InferQueue, n)
      ensures batchSize <= |Ids(Last(batch).work)| || ready < n || !CanJoin(batch)
    {
      batch := ToEnd(ms, FirstIn(ms, InferQueue));
      n := 1;
      while |Ids(Last(batch).work)| < batchSize && n <= ready && CanJoin(batch)
        invariant 1 <= n && batch == Gather(ms, InferQueue, n)
        decreases |batch|
      {
        GatherNext(ms, InferQueue, n);
        batch := JoinNext(batch);
        n := n + 1;
      }
    }

    // ---- record ----------------------------------------------------------------

    /** A write starts with the first batch queued and up to fifteen more. */
    method StartWrite(ready: nat, now: nat) returns (n: nat)
      requires Valid() && FirstIn(messages, RecordQueue) < |messages|
      modifies this, meters, meters.live
      ensures Valid() && 1 <= n <= COALESCE && SameIds(messages, old(messages))
      ensures var g := Gather(old(messages), RecordQueue, n);
              && messages == WithLast(g, Last(g).(phase := Write))
              && (n == COALESCE || ready < n || !CanJoin(g))
    {
      var batch;
      n, batch := GatherWrite(messages, ready);
      PutBatch(RecordQueue, n, batch);
      assert MessageOk(Last(messages));
      AdvanceLast(Write, Last(messages).work, now);
    }

    static method GatherWrite(ms: seq<Message>, ready: nat) returns (n: nat, batch: seq<Message>)
      requires FirstIn(ms, RecordQueue) < |ms|
      ensures 1 <= n <= COALESCE && batch == Gather(ms, RecordQueue, n)
      ensures n == COALESCE || ready < n || !CanJoin(batch)
    {
      batch := ToEnd(ms, FirstIn(ms, RecordQueue));
      n := 1;
      while n < COALESCE && n <= ready && CanJoin(batch)
        invariant 1 <= n <= COALESCE && batch == Gather(ms, RecordQueue, n)
      {
        GatherNext(ms, RecordQueue, n);
        batch := JoinNext(batch);
        n := n + 1;
      }
    }

    /**
     A write ends: its images leave with their permits and trackers. When it went through,
     exactly the completed ones count as throughput; the arrays written are those of its results.
     */
    method FinishWrite(i: nat, ok: bool, now: nat) returns (a: Arrays)
      requires Valid() && i < |messages| && messages[i].phase == Write
      modifies this, meters, gate
      ensures Valid() && messages == Without(old(messages), i)
      ensures var res := old(messages)[i].work.inferred;
              && Written(res, a) && a.failed == FailedOf(res)
              && gate.completed == old(gate.completed) + if ok then |CompletedOf(res)| else 0
    {
      assert MessageOk(messages[i]);
      var res := messages[i].work.inferred;
      a := SplitWrite(res);
      WritePartitions(res);
      assert |CompletedOf(res)| <= |res| by {
        assert |multiset(CompletedIds(CompletedOf(res)))| + |multiset(FailedOf(res))| == |multiset(IdsOf(res))|;
      }
      Leave(i, if ok then |a.completed| else 0, now);
    }

    /** A stage fails: the message is dropped, with its permits and trackers. */
    method Lose(i: nat, now: nat)
      requires Valid() && i < |messages|
      modifies this, meters, gate
      ensures Valid() && messages == Without(old(messages), i) && gate.completed == old(gate.completed)
    {
      Leave(i, 0, now);
    }

    /** A panic while message `i` is worked on: its tracker is dropped, a new one goes on in `next`. */
    method Replace(i: nat, next: Phase, work: Work, now: nat) returns (t: Tracker)
      requires Valid() && i < |messages| && |messages[i].trackers| == 1
      requires Aligned(messages[i].(phase := next, work := work))
      modifies this, meters, gate
      ensures Valid() && fresh(t)
      ensures messages == Without(old(messages), i)
                        + [old(messages)[i].(phase := next, work := work, trackers := [t])]
    {
      var m := messages[i];
      assert MessageOk(m);
      Leave(i, 0, now);
      ghost var rest, had := messages, meters.live;
      var ticket := gate.Acquire(1);
      var fresher := meters.StartAll(1, next, now);
      t := fresher[0];
      messages := messages + [m.(phase := next, work := work, trackers := [t])];
      Joined(rest, had, m.(phase := next, work := work, trackers := [t]), t);
    }

    lemma Joined(rest: seq<Message>, had: set<Tracker>, m: Message, t: Tracker)
      requires meters.Valid() && messages == rest + [m] && m.trackers == [t] && Aligned(m)
      requires meters.live == had + {t} && t !in had && t.phase == m.phase
      requires gate.inFlight == Sum(ByTicket(), rest) + 1
      requires HeldBy(rest, had)
      ensures Valid()
    {
      SumLast(ByTicket(), rest, m);
      forall x | x in meters.live ensures TrackerOk(x) {
        SumLast(ByTracker(x), rest, m);
        CountSingle(x, t);
        if x == t {
          Unheld(t, rest);
        }
      }
    }

    // ---- phase counts ----------------------------------------------------------

    lemma PhaseCount(p: Phase)
      requires Valid()
      ensures meters.items[p] == Sum(ByPhase(p), messages)
    {
      var held, counted := Union(messages, p), multiset(InPhase(meters.live, p));
      forall t | t in held + counted ensures held[t] == counted[t] {
        assert forall i :: 0 <= i < |messages| && t in messages[i].trackers ==> MessageOk(messages[i]);
        if t in meters.live {
          assert TrackerOk(t);
          UnionHolds(messages, p, t, t.phase);
        } else {
          Unheld(t, messages);
          UnionHolds(messages, p, t, p);
        }
      }
      assert held == counted;
      UnionSize(messages, p);
    }

    /** The meter of each phase shows the images in it, and all phases together the permits out. */
    lemma PhaseCounts()
      requires Valid()
      ensures forall p: Phase :: meters.items[p] == Sum(ByPhase(p), messages)
      ensures Total(meters.items) == gate.inFlight
    {
      forall p: Phase ensures meters.items[p] == Sum(ByPhase(p), messages) {
        PhaseCount(p);
      }
      AllAligned();
      PhasesHoldPermits(messages);
    }
  }
}
