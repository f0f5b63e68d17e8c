/**
 The breaker of a seat's bell: a cap per calendar minute and a cap per calendar
 hour, charged before the notifier is asked and refunded when the notifier
 typed nothing.

 Charging, asking and refunding are separate steps of the machine below, so any
 number of rings may be in flight at once. The clock never goes backwards.
 */
module Breaker {
  import opened Basics

  datatype Breaker = Breaker(minuteBucket: nat, hourBucket: nat, minuteN: nat, hourN: nat, tripped: bool)

  datatype Caps = Caps(perMin: nat, perHour: nat)

  const FRESH := Breaker(0, 0, 0, 0, false)

  datatype Span = PerMinute | PerHour

  /** The calendar bucket of a time in seconds. */
  function Bucket(span: Span, t: nat): nat {
    match span
    case PerMinute => t / 60
    case PerHour => t / 3600
  }

  /** Buckets are whole minutes and whole hours. */
  lemma BucketsAreCalendar(t: nat)
    ensures 60 * Bucket(PerMinute, t) <= t < 60 * Bucket(PerMinute, t) + 60
    ensures 3600 * Bucket(PerHour, t) <= t < 3600 * Bucket(PerHour, t) + 3600
  {
  }

  function Cap(caps: Caps, span: Span): nat {
    match span
    case PerMinute => caps.perMin
    case PerHour => caps.perHour
  }

  /** Advance the buckets; a new hour also un-trips the breaker. */
  function Roll(b: Breaker, now: nat): Breaker {
    var b1 := if Bucket(PerMinute, now) != b.minuteBucket
              then b.(minuteBucket := Bucket(PerMinute, now), minuteN := 0) else b;
    if Bucket(PerHour, now) != b1.hourBucket
    then b1.(hourBucket := Bucket(PerHour, now), hourN := 0, tripped := false) else b1
  }

  predicate Full(b: Breaker, caps: Caps) {
    b.minuteN >= caps.perMin || b.hourN >= caps.perHour
  }

  /** Charge one ring, when the rolled breaker is not full. */
  function Charge(b: Breaker): Breaker {
    b.(minuteN := b.minuteN + 1, hourN := b.hourN + 1)
  }

  /** Return a charge to the two buckets that took it, if they are still current. */
  function GiveBack(b: Breaker, minute: nat, hour: nat): Breaker {
    var b1 := if b.minuteBucket == minute && b.minuteN > 0 then b.(minuteN := b.minuteN - 1) else b;
    if b1.hourBucket == hour && b1.hourN > 0 then b1.(hourN := b1.hourN - 1) else b1
  }

  // ---------------------------------------------------------------- overlapping rings

  datatype Fate = Open | Kept | Refunded

  datatype Ring = Ring(at: nat, fate: Fate)

  /** rings is every ring ever charged; trips is the time of every trip line. */
  datatype Machine = Machine(b: Breaker, clock: nat, rings: seq<Ring>, trips: seq<nat>)

  const START := Machine(FRESH, 0, [], [])

  datatype Step = Begin(now: nat) | Finish(i: nat, refund: bool)

  predicate Enabled(m: Machine, st: Step) {
    match st
    case Begin(now) => m.clock <= now
    case Finish(i, _) => i < |m.rings| && m.rings[i].fate == Open
  }

  predicate Admits(m: Machine, caps: Caps, now: nat) {
    !Full(Roll(m.b, now), caps)
  }

  function Next(m: Machine, caps: Caps, st: Step): Machine
    requires Enabled(m, st)
  {
    match st
    case Begin(now) =>
      var b := Roll(m.b, now);
      if Full(b, caps) then
        Machine(b.(tripped := true), now, m.rings, if b.tripped then m.trips else m.trips + [now])
      else
        Machine(Charge(b), now, m.rings + [Ring(now, Open)], m.trips)
    case Finish(i, refund) =>
      var r := m.rings[i];
      if refund then
        m.(b := GiveBack(m.b, Bucket(PerMinute, r.at), Bucket(PerHour, r.at)),
           rings := m.rings[i := r.(fate := Refunded)])
      else
        m.(rings := m.rings[i := r.(fate := Kept)])
  }

  ghost predicate Run(m: Machine, caps: Caps, steps: seq<Step>, m': Machine)
    decreases |steps|
  {
    if steps == [] then m' == m
    else Enabled(m, steps[0]) && Run(Next(m, caps, steps[0]), caps, steps[1..], m')
  }

  /** The unrefunded rings charged in one calendar bucket. */
  function Spent(rings: seq<Ring>, span: Span, bucket: nat): nat {
    if rings == [] then 0
    else
      var r := rings[|rings| - 1];
      Spent(rings[..|rings| - 1], span, bucket)
      + if r.fate != Refunded && Bucket(span, r.at) == bucket then 1 else 0
  }

  /** The trip lines written in one calendar hour. */
  function TripLines(trips: seq<nat>, hour: nat): nat {
    Count(trips, (t: nat) => Bucket(PerHour, t) == hour)
  }

  function Counter(b: Breaker, span: Span): nat {
    match span
    case PerMinute => b.minuteN
    case PerHour => b.hourN
  }

  function Current(b: Breaker, span: Span): nat {
    match span
    case PerMinute => b.minuteBucket
    case PerHour => b.hourBucket
  }

  ghost predicate Inv(m: Machine, caps: Caps) {
    && (forall span :: Current(m.b, span) <= Bucket(span, m.clock))
    && (forall i, span :: 0 <= i < |m.rings| ==> Bucket(span, m.rings[i].at) <= Current(m.b, span))
    && (forall span :: Counter(m.b, span) == Spent(m.rings, span, Current(m.b, span)))
    && (forall span, k :: Spent(m.rings, span, k) <= Cap(caps, span))
    && (forall t :: t in m.trips ==> Bucket(PerHour, t) <= m.b.hourBucket)
    && TripLines(m.trips, m.b.hourBucket) == (if m.b.tripped then 1 else 0)
    && (forall h :: TripLines(m.trips, h) <= 1)
  }

  lemma {:induction false} SpentUpdate(rings: seq<Ring>, i: nat, fate: Fate, span: Span, bucket: nat)
    requires i < |rings| && rings[i].fate != Refunded
    ensures Spent(rings[i := rings[i].(fate := fate)], span, bucket)
         == Spent(rings, span, bucket)
            - if fate == Refunded && Bucket(span, rings[i].at) == bucket then 1 else 0
    ensures Bucket(span, rings[i].at) == bucket ==> Spent(rings, span, bucket) > 0
  {
    var last := |rings| - 1;
    var rings' := rings[i := rings[i].(fate := fate)];
    if i == last {
      assert rings'[..last] == rings[..last];
    } else {
      assert rings'[..last] == rings[..last][i := rings[i].(fate := fate)];
      SpentUpdate(rings[..last], i, fate, span, bucket);
    }
  }

  lemma {:induction false} SpentLater(rings: seq<Ring>, span: Span, bucket: nat)
    requires forall i :: 0 <= i < |rings| ==> Bucket(span, rings[i].at) < bucket
    ensures Spent(rings, span, bucket) == 0
  {
    if rings != [] {
      SpentLater(rings[..|rings| - 1], span, bucket);
    }
  }

  lemma SpentSnoc(rings: seq<Ring>, r: Ring, span: Span, bucket: nat)
    ensures Spent(rings + [r], span, bucket)
         == Spent(rings, span, bucket) + if r.fate != Refunded && Bucket(span, r.at) == bucket then 1 else 0
  {
    assert (rings + [r])[..|rings + [r]| - 1] == rings;
  }

  lemma {:induction false} NoTripsLater(trips: seq<nat>, hour: nat)
    requires forall t :: t in trips ==> Bucket(PerHour, t) < hour
    ensures TripLines(trips, hour) == 0
  {
    if trips != [] {
      NoTripsLater(trips[..|trips| - 1], hour);
      assert trips[|trips| - 1] in trips;
    }
  }

  lemma BucketMonotone(span: Span, s: nat, t: nat)
    requires s <= t
    ensures Bucket(span, s) <= Bucket(span, t)
  {
  }

  /** Rolling keeps every fact of the invariant, at the new time. */
  lemma RollKeeps(m: Machine, caps: Caps, now: nat)
    requires Inv(m, caps) && m.clock <= now
    ensures Inv(m.(b := Roll(m.b, now), clock := now), caps)
    ensures forall span :: Current(Roll(m.b, now), span) == Bucket(span, now)
  {
    var b := Roll(m.b, now);
    forall span
      ensures Current(b, span) == Bucket(span, now) && Current(m.b, span) <= Current(b, span)
      ensures Counter(b, span) == Spent(m.rings, span, Current(b, span))
    {
      BucketMonotone(span, m.clock, now);
      if Current(m.b, span) < Bucket(span, now) {
        SpentLater(m.rings, span, Bucket(span, now));
      }
    }
    if m.b.hourBucket < b.hourBucket {
      NoTripsLater(m.trips, b.hourBucket);
    }
  }

  lemma TripKeeps(m: Machine, caps: Caps)
    requires Inv(m, caps) && Current(m.b, PerHour) == Bucket(PerHour, m.clock) && !m.b.tripped
    ensures Inv(m.(b := m.b.(tripped := true), trips := m.trips + [m.clock]), caps)
  {
    var trips := m.trips + [m.clock];
    forall h
      ensures TripLines(trips, h) == TripLines(m.trips, h) + if h == m.b.hourBucket then 1 else 0
    {
      CountSnoc(m.trips, m.clock, (t: nat) => Bucket(PerHour, t) == h);
    }
  }

  lemma ChargeKeeps(m: Machine, caps: Caps)
    requires Inv(m, caps) && !Full(m.b, caps)
    requires forall span :: Current(m.b, span) == Bucket(span, m.clock)
    ensures Inv(m.(b := Charge(m.b), rings := m.rings + [Ring(m.clock, Open)]), caps)
  {
    var rings := m.rings + [Ring(m.clock, Open)];
    forall span, k
      ensures Spent(rings, span, k) == Spent(m.rings, span, k) + if k == Current(m.b, span) then 1 else 0
    {
      SpentSnoc(m.rings, Ring(m.clock, Open), span, k);
    }
  }

  lemma BeginKeeps(m: Machine, caps: Caps, now: nat)
    requires Inv(m, caps) && m.clock <= now
    ensures Inv(Next(m, caps, Begin(now)), caps)
  {
    RollKeeps(m, caps, now);
    var rolled := m.(b := Roll(m.b, now), clock := now);
    if !Full(rolled.b, caps) {
      ChargeKeeps(rolled, caps);
    } else if !rolled.b.tripped {
      TripKeeps(rolled, caps);
    }
  }

  lemma FinishKeeps(m: Machine, caps: Caps, i: nat, refund: bool)
    requires Inv(m, caps) && Enabled(m, Finish(i, refund))
    ensures Inv(Next(m, caps, Finish(i, refund)), caps)
  {
    var m' := Next(m, caps, Finish(i, refund));
    forall span, k
      ensures Spent(m'.rings, span, k)
           == Spent(m.rings, span, k) - if refund && Bucket(span, m.rings[i].at) == k then 1 else 0
      ensures Bucket(span, m.rings[i].at) == k ==> Spent(m.rings, span, k) > 0
    {
      SpentUpdate(m.rings, i, m'.rings[i].fate, span, k);
    }
    forall span
      ensures Counter(m'.b, span) == Spent(m'.rings, span, Current(m'.b, span))
    {
      assert Counter(m.b, span) == Spent(m.rings, span, Current(m.b, span));
    }
  }

  lemma {:induction false} RunKeeps(m: Machine, caps: Caps, steps: seq<Step>, m': Machine)
    requires Inv(m, caps) && Run(m, caps, steps, m')
    ensures Inv(m', caps)
    decreases |steps|
  {
    if steps != [] {
      match steps[0] {
        case Begin(now) => BeginKeeps(m, caps, now);
        case Finish(i, refund) => FinishKeeps(m, caps, i, refund);
      }
      RunKeeps(Next(m, caps, steps[0]), caps, steps[1..], m');
    }
  }

  lemma StartInv(caps: Caps)
    ensures Inv(START, caps)
  {
    assert forall span :: Spent([], span, Current(FRESH, span)) == 0;
  }

  /**
   In every run of overlapping rings the counters are exactly the unrefunded
   charges of the current buckets, no calendar minute or hour holds more of them
   than its cap, and no hour holds more than one trip line.
   */
  lemma CapsHold(caps: Caps, steps: seq<Step>, m: Machine)
    requires Run(START, caps, steps, m)
    ensures m.b.minuteN == Spent(m.rings, PerMinute, m.b.minuteBucket)
    ensures m.b.hourN == Spent(m.rings, PerHour, m.b.hourBucket)
    ensures forall k :: Spent(m.rings, PerMinute, k) <= caps.perMin
    ensures forall k :: Spent(m.rings, PerHour, k) <= caps.perHour
    ensures forall h :: TripLines(m.trips, h) <= 1
  {
    StartInv(caps);
    RunKeeps(START, caps, steps, m);
    assert forall k :: Spent(m.rings, PerMinute, k) <= Cap(caps, PerMinute);
    assert forall k :: Spent(m.rings, PerHour, k) <= Cap(caps, PerHour);
    assert Counter(m.b, PerMinute) == Spent(m.rings, PerMinute, Current(m.b, PerMinute));
    assert Counter(m.b, PerHour) == Spent(m.rings, PerHour, Current(m.b, PerHour));
  }

  /** A refund into a bucket that is still current always finds its charge there. */
  lemma RefundGuardsNeverBite(caps: Caps, steps: seq<Step>, m: Machine, i: nat)
    requires Run(START, caps, steps, m) && Enabled(m, Finish(i, true))
    ensures m.b.minuteBucket == Bucket(PerMinute, m.rings[i].at) ==> m.b.minuteN > 0
    ensures m.b.hourBucket == Bucket(PerHour, m.rings[i].at) ==> m.b.hourN > 0
  {
    CapsHold(caps, steps, m);
    SpentUpdate(m.rings, i, Refunded, PerMinute, m.b.minuteBucket);
    SpentUpdate(m.rings, i, Refunded, PerHour, m.b.hourBucket);
  }

  /** The breaker refuses a ring exactly when the minute or the hour of that ring is spent. */
  lemma AdmitsExactly(caps: Caps, steps: seq<Step>, m: Machine, now: nat)
    requires Run(START, caps, steps, m) && m.clock <= now
    ensures Admits(m, caps, now) <==>
            && Spent(m.rings, PerMinute, Bucket(PerMinute, now)) < caps.perMin
            && Spent(m.rings, PerHour, Bucket(PerHour, now)) < caps.perHour
  {
    StartInv(caps);
    RunKeeps(START, caps, steps, m);
    RollKeeps(m, caps, now);
    var b := Roll(m.b, now);
    assert Counter(b, PerMinute) == Spent(m.rings, PerMinute, Current(b, PerMinute));
    assert Counter(b, PerHour) == Spent(m.rings, PerHour, Current(b, PerHour));
  }
}
