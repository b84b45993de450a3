/**
 Time zones, seen the way the cron engine sees them.

 An instant is a number of nanoseconds since the epoch, and so is a wall-clock
 reading. A zone reads every instant as a wall time, and answers for a wall time
 which instants read as it: none (a spring-forward gap), one, or two (an autumn
 repeat), the two in no promised order.
 */
module Zones {
  import opened Common

  type Instant = int
  type WallTime = int

  datatype LocalResult = Gap | Single(at: Instant) | Ambiguous(a: Instant, b: Instant)

  datatype Zone = Zone(wall: Instant -> WallTime, local: WallTime -> LocalResult)

  function Min(a: int, b: int): int {
    if a <= b then a else b
  }

  /** `resolve_in`: the earlier of two candidates, compared as instants. */
  function Resolve(z: Zone, w: WallTime): Option<Instant> {
    match z.local(w)
    case Gap => None
    case Single(at) => Some(at)
    case Ambiguous(a, b) => Some(Min(a, b))
  }

  predicate Names(r: LocalResult, i: Instant) {
    match r
    case Gap => false
    case Single(at) => i == at
    case Ambiguous(a, b) => i == a || i == b
  }

  /** The zone's two directions describe the same relation. */
  ghost predicate Faithful(z: Zone) {
    forall w, i {:trigger Names(z.local(w), i)} {:trigger z.wall(i), z.local(w)} ::
      Names(z.local(w), i) <==> z.wall(i) == w
  }

  /** Later wall times are first read later. */
  ghost predicate Ordered(z: Zone) {
    forall v, w {:trigger Resolve(z, v), Resolve(z, w)} ::
      v < w && Resolve(z, v).Some? && Resolve(z, w).Some? ==> Resolve(z, v).value < Resolve(z, w).value
  }

  /** The instant is the first one with its wall reading, not a repeat of it. */
  predicate FirstPass(z: Zone, i: Instant) {
    Resolve(z, z.wall(i)) == Some(i)
  }

  lemma ResolveIsEarliestPreimage(z: Zone, w: WallTime)
    requires Faithful(z)
    ensures Resolve(z, w).None? <==> forall i :: z.wall(i) != w
    ensures Resolve(z, w).Some? ==>
      z.wall(Resolve(z, w).value) == w && forall i :: z.wall(i) == w ==> Resolve(z, w).value <= i
  {
    forall i ensures Names(z.local(w), i) <==> z.wall(i) == w {}
    match z.local(w)
    case Gap =>
    case Single(at) => assert Names(z.local(w), at);
    case Ambiguous(a, b) => assert Names(z.local(w), a) && Names(z.local(w), b);
  }

  // ── The zones themselves ──

  /** A zone whose wall clock is always `offset` ahead of the instant. UTC is `FixedOffset(0)`. */
  function FixedOffset(offset: int): Zone {
    Zone(i => i + offset, w => Single(w - offset))
  }

  /**
   A zone whose offset changes once, at the instant `at`. When the offset grows the
   wall times in between do not exist; when it shrinks they happen twice. The pair is
   handed back by offset, not by instant, as the date library does.
   */
  function OneTransition(at: Instant, before: int, after: int): Zone {
    Zone(
      i => if i < at then i + before else i + after,
      w =>
        var early := w - before < at;
        var late := at <= w - after;
        if early && late then Ambiguous(w - after, w - before)
        else if early then Single(w - before)
        else if late then Single(w - after)
        else Gap
    )
  }

  lemma FixedOffsetLaws(offset: int)
    ensures Faithful(FixedOffset(offset)) && Ordered(FixedOffset(offset))
    ensures forall i :: FirstPass(FixedOffset(offset), i)
  {
  }

  /** Both a spring-forward and an autumn zone satisfy the two laws the theorems assume. */
  lemma OneTransitionLaws(at: Instant, before: int, after: int)
    requires before != after
    ensures Faithful(OneTransition(at, before, after)) && Ordered(OneTransition(at, before, after))
    ensures forall w {:trigger OneTransition(at, before, after).local(w)} ::
      OneTransition(at, before, after).local(w).Gap? <==> at + before <= w < at + after
    ensures forall w {:trigger OneTransition(at, before, after).local(w)} ::
      OneTransition(at, before, after).local(w).Ambiguous? <==> at + after <= w < at + before
  {
  }

  /** A year with summer time: the clocks go forward at `spring`, and back again at `autumn`. */
  function SummerTime(spring: Instant, autumn: Instant, winter: int, summer: int): Zone {
    Zone(
      i => if spring <= i < autumn then i + summer else i + winter,
      w =>
        var inWinter := w - winter < spring || autumn <= w - winter;
        var inSummer := spring <= w - summer < autumn;
        if inWinter && inSummer then Ambiguous(w - winter, w - summer)
        else if inWinter then Single(w - winter)
        else if inSummer then Single(w - summer)
        else Gap
    )
  }

  /** Two changes in a row satisfy the laws, when the summer is longer than the hour it moves. */
  lemma SummerTimeLaws(spring: Instant, autumn: Instant, winter: int, summer: int)
    requires 0 < summer - winter <= autumn - spring
    ensures Faithful(SummerTime(spring, autumn, winter, summer)) && Ordered(SummerTime(spring, autumn, winter, summer))
    ensures forall w {:trigger SummerTime(spring, autumn, winter, summer).local(w)} ::
      var r := SummerTime(spring, autumn, winter, summer).local(w);
      (r.Gap? <==> spring + winter <= w < spring + summer) && (r.Ambiguous? <==> autumn + winter <= w < autumn + summer)
  {
  }
}
