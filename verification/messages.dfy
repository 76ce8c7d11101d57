/**
 What travels between the stages of the embedding pipeline (embed/src/cli.rs): images, the
 permits that let them in, and their trackers.
 */
module Messages {
  import opened Wrappers
  import opened Phases
  import opened Batches

  /** Permits of the gate. */
  datatype Ticket = Ticket(len: nat) {
    function Split(n: nat): (Ticket, Ticket)
      requires n <= len
    {
      (Ticket(n), Ticket(len - n))
    }

    function Merge(more: Ticket): Ticket {
      Ticket(len + more.len)
    }
  }

  datatype Work =
    | Named(id: int, name: string)
    | Bytes(id: int, buf: Option<string>)
    | Images(decoded: seq<Decoded>)
    | Results(inferred: seq<Inferred>)

  datatype Message = Message(phase: Phase, work: Work, ticket: Ticket, trackers: seq<Tracker>)

  function Ids(w: Work): seq<int> {
    match w
    case Named(id, _) => [id]
    case Bytes(id, _) => [id]
    case Images(decoded) => IdsOf(decoded)
    case Results(inferred) => IdsOf(inferred)
  }

  /** What a message carries in each phase. */
  predicate Typed(m: Message) {
    match m.phase
    case Claim | Download => m.work.Named?
    case DecodeQueue | Decode => m.work.Bytes?
    case InferQueue | Infer => m.work.Images?
    case RecordQueue | Write => m.work.Results?
  }

  /** One permit and one tracker for each image. */
  predicate Aligned(m: Message) {
    Typed(m) && |Ids(m.work)| == |m.trackers| == m.ticket.len
  }

  predicate Joinable(a: Message, b: Message) {
    a.phase == b.phase && ((a.work.Images? && b.work.Images?) || (a.work.Results? && b.work.Results?))
  }

  /** One message of two: lists appended, tickets merged. */
  function Join(a: Message, b: Message): Message
    requires Joinable(a, b)
  {
    var work := if a.work.Images? then Images(a.work.decoded + b.work.decoded)
                else Results(a.work.inferred + b.work.inferred);
    Message(a.phase, work, a.ticket.Merge(b.ticket), a.trackers + b.trackers)
  }

  lemma JoinAligned(a: Message, b: Message)
    requires Joinable(a, b) && Aligned(a) && Aligned(b)
    ensures Aligned(Join(a, b)) && Ids(Join(a, b).work) == Ids(a.work) + Ids(b.work)
  {
  }

  // ---- measures ----------------------------------------------------------------

  function Count<T(==)>(x: T, list: seq<T>): nat {
    if list == [] then 0 else Count(x, list[..|list| - 1]) + if list[|list| - 1] == x then 1 else 0
  }

  type Measure = Message -> nat

  function ByTracker(t: Tracker): Measure {
    (m: Message) => Count(t, m.trackers)
  }

  function ByTicket(): Measure {
    (m: Message) => m.ticket.len
  }

  function ById(id: int): Measure {
    (m: Message) => Count(id, Ids(m.work))
  }

  function ByPhase(p: Phase): Measure {
    (m: Message) => if m.phase == p then |m.trackers| else 0
  }

  function Sum(f: Measure, ms: seq<Message>): nat {
    if ms == [] then 0 else Sum(f, ms[..|ms| - 1]) + f(ms[|ms| - 1])
  }

  function Without(ms: seq<Message>, i: nat): (r: seq<Message>)
    requires i < |ms|
    ensures |r| == |ms| - 1
  {
    ms[..i] + ms[i + 1..]
  }

  lemma {:induction false} CountAppend<T>(x: T, a: seq<T>, b: seq<T>)
    ensures Count(x, a + b) == Count(x, a) + Count(x, b)
  {
    if b == [] {
      assert a + b == a;
    } else {
      CountAppend(x, a, b[..|b| - 1]);
      AppendFront(a, b);
    }
  }

  lemma {:induction false} CountMember<T>(x: T, list: seq<T>)
    ensures x in list <==> Count(x, list) >= 1
  {
    if list != [] {
      CountMember(x, list[..|list| - 1]);
    }
  }

  /** A list in which everything counts once holds no pair of equal elements. */
  lemma CountDistinct<T>(list: seq<T>, i: nat, j: nat)
    requires i < j < |list| && Count(list[i], list) <= 1
    ensures list[i] != list[j]
  {
    var x := list[i];
    CountAppend(x, list[..j], list[j..]);
    assert list[..j] + list[j..] == list;
    CountMember(x, list[..j]);
    CountMember(x, list[j..]);
    assert list[..j][i] == x;
    assert list[j..][0] == list[j];
  }

  lemma SumLast(f: Measure, ms: seq<Message>, m: Message)
    ensures Sum(f, ms + [m]) == Sum(f, ms) + f(m)
  {
    assert (ms + [m])[..|ms|] == ms;
  }

  lemma {:induction false} SumWithout(f: Measure, ms: seq<Message>, i: nat)
    requires i < |ms|
    ensures Sum(f, ms) == Sum(f, Without(ms, i)) + f(ms[i])
  {
    var n := |ms| - 1;
    if i == n {
      assert Without(ms, i) == ms[..n];
    } else {
      SumWithout(f, ms[..n], i);
      assert Without(ms, i)[..n - 1] == Without(ms[..n], i);
    }
  }

  /** No tracker is in two messages when each counts once. */
  lemma Apart(t: Tracker, ms: seq<Message>, i: nat, m: Message)
    requires i < |ms| && m in Without(ms, i) && Sum(ByTracker(t), ms) <= 1
    requires t in ms[i].trackers
    ensures t !in m.trackers
  {
    var rest := Without(ms, i);
    var k :| 0 <= k < |rest| && rest[k] == m;
    SumWithout(ByTracker(t), ms, i);
    SumWithout(ByTracker(t), rest, k);
    CountMember(t, ms[i].trackers);
    CountMember(t, m.trackers);
  }

  lemma {:induction false} CountOnce<T>(list: seq<T>, x: T)
    requires forall i, j :: 0 <= i < j < |list| ==> list[i] != list[j]
    ensures Count(x, list) == if x in list then 1 else 0
  {
    if list != [] {
      var n := |list| - 1;
      CountOnce(list[..n], x);
      if list[n] == x {
        CountMember(x, list[..n]);
      }
    }
  }

  // ---- fresh claims ------------------------------------------------------------

  type Record = (int, string)

  /** One message per record, with one permit and one tracker each. */
  function Claimed(records: seq<Record>, trackers: seq<Tracker>): (r: seq<Message>)
    requires |records| == |trackers|
    ensures |r| == |records|
    ensures forall i :: 0 <= i < |r| ==>
              r[i] == Message(Claim, Named(records[i].0, records[i].1), Ticket(1), [trackers[i]])
  {
    if records == [] then []
    else
      var n := |records| - 1;
      Claimed(records[..n], trackers[..n])
      + [Message(Claim, Named(records[n].0, records[n].1), Ticket(1), [trackers[n]])]
  }

  lemma CountSingle<T>(x: T, y: T)
    ensures Count(x, [y]) == if x == y then 1 else 0
  {
    assert [y][..0] == [];
  }

  lemma {:induction false} SumAppend(f: Measure, a: seq<Message>, b: seq<Message>)
    ensures Sum(f, a + b) == Sum(f, a) + Sum(f, b)
  {
    if b == [] {
      assert a + b == a;
    } else {
      SumAppend(f, a, b[..|b| - 1]);
      AppendFront(a, b);
    }
  }

  lemma {:induction false} ClaimedTickets(records: seq<Record>, trackers: seq<Tracker>)
    requires |records| == |trackers|
    ensures Sum(ByTicket(), Claimed(records, trackers)) == |records|
  {
    if records != [] {
      ClaimedTickets(records[..|records| - 1], trackers[..|records| - 1]);
    }
  }

  lemma {:induction false} ClaimedTrackers(t: Tracker, records: seq<Record>, trackers: seq<Tracker>)
    requires |records| == |trackers|
    ensures Sum(ByTracker(t), Claimed(records, trackers)) == Count(t, trackers)
  {
    if records != [] {
      var n := |records| - 1;
      ClaimedTrackers(t, records[..n], trackers[..n]);
      CountSingle(t, trackers[n]);
    }
  }

  lemma {:induction false} Unheld(t: Tracker, ms: seq<Message>)
    requires forall i :: 0 <= i < |ms| ==> t !in ms[i].trackers
    ensures Sum(ByTracker(t), ms) == 0
  {
    if ms != [] {
      Unheld(t, ms[..|ms| - 1]);
      CountMember(t, ms[|ms| - 1].trackers);
    }
  }

  /** A tracker held once, or a fresh one, is held once after fresh trackers came in. */
  lemma HeldOnce(t: Tracker, before: seq<Message>, records: seq<Record>, trackers: seq<Tracker>)
    requires |records| == |trackers| && Distinct(trackers)
    requires Sum(ByTracker(t), before) == if t in trackers then 0 else 1
    ensures Sum(ByTracker(t), before + Claimed(records, trackers)) == 1
  {
    ClaimedTrackers(t, records, trackers);
    SumAppend(ByTracker(t), before, Claimed(records, trackers));
    CountOnce(trackers, t);
  }

  // ---- gathering a batch -------------------------------------------------------

  /** The first message of phase `p`, or the length. */
  function FirstIn(ms: seq<Message>, p: Phase): (i: nat)
    ensures i <= |ms|
    ensures i < |ms| ==> ms[i].phase == p
    ensures forall k :: 0 <= k < i ==> ms[k].phase != p
  {
    if ms == [] then 0
    else
      var i := FirstIn(ms[..|ms| - 1], p);
      if i < |ms| - 1 then i else if ms[|ms| - 1].phase == p then |ms| - 1 else |ms|
  }

  /** The last message takes in the first other one of its phase. */
  function JoinNext(ms: seq<Message>): (r: seq<Message>)
    requires CanJoin(ms)
    ensures |r| == |ms| - 1
  {
    var n := |ms| - 1;
    var i := FirstIn(ms[..n], ms[n].phase);
    Without(ms[..n], i) + [Join(ms[n], ms[i])]
  }

  predicate CanJoin(ms: seq<Message>) {
    ms != [] &&
    var n := |ms| - 1;
    var i := FirstIn(ms[..n], ms[n].phase);
    i < n && Joinable(ms[n], ms[i])
  }

  predicate Adds(f: Measure, a: Message, b: Message)
    requires Joinable(a, b)
  {
    f(Join(a, b)) == f(a) + f(b)
  }

  lemma TrackersAdd(t: Tracker, a: Message, b: Message)
    requires Joinable(a, b)
    ensures Adds(ByTracker(t), a, b)
  {
    CountAppend(t, a.trackers, b.trackers);
  }

  lemma IdsAdd(id: int, a: Message, b: Message)
    requires Joinable(a, b) && Aligned(a) && Aligned(b)
    ensures Adds(ById(id), a, b)
  {
    JoinAligned(a, b);
    CountAppend(id, Ids(a.work), Ids(b.work));
  }

  /** Both lists carry the same ids, each equally often. */
  ghost predicate SameIds(a: seq<Message>, b: seq<Message>) {
    forall id :: Sum(ById(id), a) == Sum(ById(id), b)
  }

  lemma JoinNextIds(ms: seq<Message>)
    requires CanJoin(ms) && forall i :: 0 <= i < |ms| ==> Aligned(ms[i])
    ensures SameIds(JoinNext(ms), ms)
  {
    var front, last := ms[..|ms| - 1], ms[|ms| - 1];
    forall id ensures Sum(ById(id), JoinNext(ms)) == Sum(ById(id), ms) {
      IdsAdd(id, last, front[FirstIn(front, last.phase)]);
      JoinNextSum(ById(id), ms);
    }
  }

  lemma SumMoved(f: Measure, front: seq<Message>, i: nat, m: Message)
    requires i < |front|
    ensures Sum(f, Without(front, i) + [m]) == Sum(f, front) - f(front[i]) + f(m)
  {
    SumWithout(f, front, i);
    SumLast(f, Without(front, i), m);
  }

  lemma JoinNextSum(f: Measure, ms: seq<Message>)
    requires CanJoin(ms)
    requires var n := |ms| - 1; Adds(f, ms[n], ms[FirstIn(ms[..n], ms[n].phase)])
    ensures Sum(f, JoinNext(ms)) == Sum(f, ms)
  {
    var front, last := ms[..|ms| - 1], ms[|ms| - 1];
    var i := FirstIn(front, last.phase);
    SumMoved(f, front, i, Join(last, front[i]));
  }

  /** Message `i` moves to the end. */
  function ToEnd(ms: seq<Message>, i: nat): seq<Message>
    requires i < |ms|
  {
    Without(ms, i) + [ms[i]]
  }

  lemma ToEndSum(f: Measure, ms: seq<Message>, i: nat)
    requires i < |ms|
    ensures Sum(f, ToEnd(ms, i)) == Sum(f, ms)
  {
    SumMoved(f, ms, i, ms[i]);
  }

  lemma ToEndIds(ms: seq<Message>, i: nat)
    requires i < |ms|
    ensures SameIds(ToEnd(ms, i), ms)
  {
    forall id ensures Sum(ById(id), ToEnd(ms, i)) == Sum(ById(id), ms) {
      ToEndSum(ById(id), ms, i);
    }
  }

  /** Works on the same images, each equally often. */
  ghost predicate SameWork(a: Work, b: Work) {
    forall id :: Count(id, Ids(a)) == Count(id, Ids(b))
  }

  /** A list whose last message changed keeps its ids when the message does. */
  lemma LastIds(ms: seq<Message>, m: Message)
    requires ms != [] && SameWork(m.work, Last(ms).work)
    ensures SameIds(WithLast(ms, m), ms)
  {
    var front, last := ms[..|ms| - 1], Last(ms);
    assert ms == front + [last];
    forall id ensures Sum(ById(id), front + [m]) == Sum(ById(id), ms) {
      SumLast(ById(id), front, m);
      SumLast(ById(id), front, last);
    }
  }

  lemma InferSameWork(models: Models, images: seq<Decoded>)
    ensures SameWork(Results(InferBatch(models, images)), Images(images))
  {
    InferKeepsIds(models, images);
    forall id ensures Count(id, IdsOf(InferBatch(models, images))) == Count(id, IdsOf(images)) {
      CountIsMultiplicity(id, IdsOf(InferBatch(models, images)));
      CountIsMultiplicity(id, IdsOf(images));
    }
  }

  /** The first `n` messages of phase `p` taken out, merged, and put at the end. */
  function Gather(ms: seq<Message>, p: Phase, n: nat): (r: seq<Message>)
    requires n >= 1 && FirstIn(ms, p) < |ms|
    ensures r != [] && r[|r| - 1].phase == p
  {
    if n == 1 then ToEnd(ms, FirstIn(ms, p))
    else
      var before := Gather(ms, p, n - 1);
      if CanJoin(before) then JoinNext(before) else before
  }

  /** Gathering keeps permits aligned, and all ids. */
  lemma {:induction false} GatherKeeps(ms: seq<Message>, p: Phase, n: nat)
    requires n >= 1 && FirstIn(ms, p) < |ms| && forall i :: 0 <= i < |ms| ==> Aligned(ms[i])
    ensures forall i :: 0 <= i < |Gather(ms, p, n)| ==> Aligned(Gather(ms, p, n)[i])
    ensures SameIds(Gather(ms, p, n), ms)
  {
    if n == 1 {
      ToEndIds(ms, FirstIn(ms, p));
    } else {
      GatherKeeps(ms, p, n - 1);
      var before := Gather(ms, p, n - 1);
      if CanJoin(before) {
        JoinNextIds(before);
        JoinNextAligned(before);
      }
    }
  }

  /** Gathering leaves every measure that adds up under joining alone. */
  lemma {:induction false} GatherSum(f: Measure, ms: seq<Message>, p: Phase, n: nat)
    requires n >= 1 && FirstIn(ms, p) < |ms|
    requires forall a, b | Joinable(a, b) :: Adds(f, a, b)
    ensures Sum(f, Gather(ms, p, n)) == Sum(f, ms)
  {
    if n == 1 {
      ToEndSum(f, ms, FirstIn(ms, p));
    } else {
      GatherSum(f, ms, p, n - 1);
      var before := Gather(ms, p, n - 1);
      if CanJoin(before) {
        JoinNextSum(f, before);
      }
    }
  }

  lemma GatherTrackers(t: Tracker, ms: seq<Message>, p: Phase, n: nat)
    requires n >= 1 && FirstIn(ms, p) < |ms|
    ensures Sum(ByTracker(t), Gather(ms, p, n)) == Sum(ByTracker(t), ms)
  {
    forall a, b | Joinable(a, b) ensures Adds(ByTracker(t), a, b) {
      TrackersAdd(t, a, b);
    }
    GatherSum(ByTracker(t), ms, p, n);
  }

  lemma JoinNextAligned(ms: seq<Message>)
    requires CanJoin(ms) && forall i :: 0 <= i < |ms| ==> Aligned(ms[i])
    ensures forall i :: 0 <= i < |ms| - 1 ==> Aligned(JoinNext(ms)[i])
  {
    var front, last := ms[..|ms| - 1], ms[|ms| - 1];
    JoinAligned(last, front[FirstIn(front, last.phase)]);
  }

  lemma GatherNext(ms: seq<Message>, p: Phase, n: nat)
    requires n >= 1 && FirstIn(ms, p) < |ms| && CanJoin(Gather(ms, p, n))
    ensures Gather(ms, p, n + 1) == JoinNext(Gather(ms, p, n))
  {
  }

  /** The last message changed to `m`. */
  function WithLast(ms: seq<Message>, m: Message): seq<Message>
    requires ms != []
  {
    ms[..|ms| - 1] + [m]
  }

  function Last(ms: seq<Message>): Message
    requires ms != []
  {
    ms[|ms| - 1]
  }

  // ---- counting by phase -------------------------------------------------------

  ghost function Union(ms: seq<Message>, p: Phase): multiset<Tracker> {
    if ms == [] then multiset{}
    else Union(ms[..|ms| - 1], p) + if ms[|ms| - 1].phase == p then multiset(ms[|ms| - 1].trackers) else multiset{}
  }

  lemma {:induction false} CountIsMultiplicity<T>(x: T, list: seq<T>)
    ensures Count(x, list) == multiset(list)[x]
  {
    if list != [] {
      CountIsMultiplicity(x, list[..|list| - 1]);
      assert list == list[..|list| - 1] + [list[|list| - 1]];
    }
  }

  lemma {:induction false} UnionSize(ms: seq<Message>, p: Phase)
    ensures |Union(ms, p)| == Sum(ByPhase(p), ms)
  {
    if ms != [] {
      UnionSize(ms[..|ms| - 1], p);
    }
  }

  /** A tracker found only in messages of phase `q` counts there and nowhere else. */
  lemma {:induction false} UnionHolds(ms: seq<Message>, p: Phase, t: Tracker, q: Phase)
    requires forall i :: 0 <= i < |ms| && t in ms[i].trackers ==> ms[i].phase == q
    ensures Union(ms, p)[t] == if p == q then Sum(ByTracker(t), ms) else 0
  {
    if ms != [] {
      var m := ms[|ms| - 1];
      UnionHolds(ms[..|ms| - 1], p, t, q);
      CountIsMultiplicity(t, m.trackers);
      CountMember(t, m.trackers);
    }
  }

  function PhaseSum(ms: seq<Message>): nat {
    Sum(ByPhase(Claim), ms) + Sum(ByPhase(Download), ms) + Sum(ByPhase(DecodeQueue), ms) + Sum(ByPhase(Decode), ms)
    + Sum(ByPhase(InferQueue), ms) + Sum(ByPhase(Infer), ms) + Sum(ByPhase(RecordQueue), ms) + Sum(ByPhase(Write), ms)
  }

  lemma OnePhase(m: Message)
    ensures ByPhase(Claim)(m) + ByPhase(Download)(m) + ByPhase(DecodeQueue)(m) + ByPhase(Decode)(m)
            + ByPhase(InferQueue)(m) + ByPhase(Infer)(m) + ByPhase(RecordQueue)(m) + ByPhase(Write)(m) == |m.trackers|
  {
  }

  lemma {:induction false} PhasesHoldPermits(ms: seq<Message>)
    requires forall i :: 0 <= i < |ms| ==> Aligned(ms[i])
    ensures PhaseSum(ms) == Sum(ByTicket(), ms)
  {
    if ms != [] {
      PhasesHoldPermits(ms[..|ms| - 1]);
      OnePhase(ms[|ms| - 1]);
    }
  }
}
