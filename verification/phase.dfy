/**
 The phases of the embedding pipeline (embed/src/phase.rs): a tracker travels with each
 image, and the meters count the trackers in each phase.

 `live` is ghost: the trackers that exist. The clock is a parameter.
 */
module Phases {
  datatype Phase = Claim | Download | DecodeQueue | Decode | InferQueue | Infer | RecordQueue | Write

  datatype Stay = Stay(phase: Phase, duration: nat)

  ghost function InPhase(s: set<Tracker>, p: Phase): set<Tracker>
    reads s
  {
    set t | t in s && t.phase == p
  }

  /** Images in all phases together. */
  function Total(items: map<Phase, int>): int
    requires forall p: Phase :: p in items
  {
    items[Claim] + items[Download] + items[DecodeQueue] + items[Decode]
    + items[InferQueue] + items[Infer] + items[RecordQueue] + items[Write]
  }

  predicate Distinct(trackers: seq<Tracker>) {
    forall i, j :: 0 <= i < j < |trackers| ==> trackers[i] != trackers[j]
  }

  class Meters {
    var items: map<Phase, int>
    var stays: seq<Stay>
    ghost var live: set<Tracker>

    /** Each count is the number of trackers in that phase. */
    ghost predicate Valid()
      reads this, live
    {
      && (forall t <- live :: t.meters == this)
      && (forall p: Phase :: p in items)
      && forall p: Phase :: items[p] == |InPhase(live, p)|
    }

    constructor ()
      ensures Valid() && live == {} && stays == []
    {
      items := map[Claim := 0, Download := 0, DecodeQueue := 0, Decode := 0,
                   InferQueue := 0, Infer := 0, RecordQueue := 0, Write := 0];
      stays := [];
      live := {};
      new;
      forall p: Phase ensures p in items && items[p] == |InPhase(live, p)| {
        assert InPhase({}, p) == {};
        match p
        case Claim | Download | DecodeQueue | Decode | InferQueue | Infer | RecordQueue | Write =>
      }
    }

    method Add(n: int, p: Phase)
      requires forall q: Phase :: q in items
      modifies this`items
      ensures items == old(items)[p := old(items)[p] + n]
    {
      items := items[p := items[p] + n];
    }

    /** The images of a batch move on together. */
    method EnterAll(trackers: seq<Tracker>, next: Phase, now: nat)
      requires Valid() && forall t <- trackers :: t in live
      modifies this, trackers
      ensures Valid() && live == old(live) && |stays| == old(|stays|) + |trackers|
      ensures forall t <- trackers :: t.phase == next
    {
      for k := 0 to |trackers|
        invariant Valid() && live == old(live) && |stays| == old(|stays|) + k
        invariant forall j :: 0 <= j < k ==> trackers[j].phase == next
      {
        trackers[k].Enter(next, now);
      }
    }

    /** Start counting `n` images in `p`. */
    method StartAll(n: nat, p: Phase, now: nat) returns (trackers: seq<Tracker>)
      requires Valid()
      modifies this
      ensures Valid() && live == old(live) + (set t | t in trackers) && stays == old(stays)
      ensures |trackers| == n && Distinct(trackers)
      ensures forall t <- trackers :: fresh(t) && t.phase == p
    {
      trackers := [];
      for k := 0 to n
        invariant Valid() && live == old(live) + (set t | t in trackers) && stays == old(stays)
        invariant |trackers| == k && Distinct(trackers)
        invariant forall t <- trackers :: fresh(t) && t.phase == p
      {
        var t := new Tracker(this, p, now);
        trackers := trackers + [t];
      }
    }

    method DropAll(trackers: seq<Tracker>, now: nat)
      requires Valid() && (forall t <- trackers :: t in live) && Distinct(trackers)
      modifies this
      ensures Valid() && live == old(live) - (set t | t in trackers) && |stays| == old(|stays|) + |trackers|
    {
      for k := 0 to |trackers|
        invariant Valid() && live == old(live) - (set t | t in trackers[..k]) && |stays| == old(|stays|) + k
      {
        trackers[k].Drop(now);
      }
      assert trackers[..|trackers|] == trackers;
    }

    method DiscardAll(trackers: seq<Tracker>)
      requires Valid() && (forall t <- trackers :: t in live) && Distinct(trackers)
      modifies this
      ensures Valid() && live == old(live) - (set t | t in trackers) && stays == old(stays)
    {
      for k := 0 to |trackers|
        invariant Valid() && live == old(live) - (set t | t in trackers[..k]) && stays == old(stays)
      {
        trackers[k].Discard();
      }
      assert trackers[..|trackers|] == trackers;
    }

    /** The counts of all phases add up to the trackers that exist. */
    lemma CountsAddUp()
      requires Valid()
      ensures Total(items) == |live|
    {
      PhasesPartition(live);
    }
  }

  lemma {:induction false} PhasesPartition(s: set<Tracker>)
    ensures |s| == |InPhase(s, Claim)| + |InPhase(s, Download)| + |InPhase(s, DecodeQueue)| + |InPhase(s, Decode)|
                 + |InPhase(s, InferQueue)| + |InPhase(s, Infer)| + |InPhase(s, RecordQueue)| + |InPhase(s, Write)|
  {
    if t :| t in s {
      PhasesPartition(s - {t});
      forall p: Phase ensures |InPhase(s, p)| == |InPhase(s - {t}, p)| + if t.phase == p then 1 else 0 {
        PhaseWithout(s, t, p);
      }
    }
  }

  lemma PhaseWithout(s: set<Tracker>, t: Tracker, p: Phase)
    requires t in s
    ensures |InPhase(s, p)| == |InPhase(s - {t}, p)| + if t.phase == p then 1 else 0
  {
    if t.phase == p {
      assert InPhase(s, p) == InPhase(s - {t}, p) + {t};
    } else {
      assert InPhase(s, p) == InPhase(s - {t}, p);
    }
  }

  class Tracker {
    const meters: Meters
    var phase: Phase
    var since: nat

    constructor (meters: Meters, phase: Phase, now: nat)
      requires meters.Valid()
      modifies meters
      ensures meters.Valid() && meters.live == old(meters.live) + {this} && meters.stays == old(meters.stays)
      ensures this.meters == meters && this.phase == phase && since == now
    {
      this.meters := meters;
      this.phase := phase;
      since := now;
      new;
      meters.Add(1, phase);
      meters.live := meters.live + {this};
      forall p: Phase ensures meters.items[p] == |InPhase(meters.live, p)| {
        PhaseWithout(meters.live, this, p);
        assert meters.live - {this} == old(meters.live);
        assert InPhase(old(meters.live), p) == old(InPhase(meters.live, p));
      }
    }

    /** The image moves on: counted in `next` only, and its stay is recorded. */
    method Enter(next: Phase, now: nat)
      requires meters.Valid() && this in meters.live
      modifies this, meters
      ensures meters.Valid() && meters.live == old(meters.live)
      ensures phase == next && since == now
      ensures meters.stays == old(meters.stays) + [Stay(old(phase), old(Elapsed(now)))]
    {
      Leave(now);
      meters.Add(1, next);
      phase := next;
      since := now;
      forall p: Phase ensures meters.items[p] == |InPhase(meters.live, p)| {
        PhaseWithout(meters.live, this, p);
        assert old(InPhase(meters.live, p)) - {this} == InPhase(meters.live - {this}, p);
      }
    }

    function Elapsed(now: nat): nat
      reads this
    {
      if since <= now then now - since else 0
    }

    /** A permit that never became an image stops counting, and no stay is recorded. */
    method Discard()
      requires meters.Valid() && this in meters.live
      modifies meters
      ensures meters.Valid() && meters.live == old(meters.live) - {this}
      ensures meters.stays == old(meters.stays)
    {
      meters.Add(-1, phase);
      meters.live := meters.live - {this};
      forall p: Phase ensures meters.items[p] == |InPhase(meters.live, p)| {
        PhaseWithout(old(meters.live), this, p);
      }
    }

    method Leave(now: nat)
      requires forall p: Phase :: p in meters.items
      modifies meters`items, meters`stays
      ensures old(phase in meters.items) && meters.items == old(meters.items[phase := meters.items[phase] - 1])
      ensures meters.stays == old(meters.stays) + [Stay(phase, Elapsed(now))]
    {
      meters.stays := meters.stays + [Stay(phase, Elapsed(now))];
      meters.Add(-1, phase);
    }

    /** Dropping takes the image out of its phase and records its stay there. */
    method Drop(now: nat)
      requires meters.Valid() && this in meters.live
      modifies meters
      ensures meters.Valid() && meters.live == old(meters.live) - {this}
      ensures meters.stays == old(meters.stays) + [Stay(phase, Elapsed(now))]
    {
      Leave(now);
      meters.live := meters.live - {this};
      forall p: Phase ensures meters.items[p] == |InPhase(meters.live, p)| {
        PhaseWithout(old(meters.live), this, p);
      }
    }
  }
}
