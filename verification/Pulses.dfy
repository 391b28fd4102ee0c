/** Pulse trains counted in whole pulses: floor division, re-basing, completion, 64-bit saturation. */
module Pulses {
  import opened Options
  import opened Words

  const NS_PER_S: nat := 1_000_000_000

  /** One constant-rate segment: pulses before it, its rate from `sinceNs` on, and the train's ceiling if it has one. */
  datatype PeriodicSchedule = PeriodicSchedule(emitted: U64, freqHz: U32, total: Option<U64>, sinceNs: U64)

  function PulsesIn(elapsedNs: U64, freqHz: U32): U64 {
    Min(elapsedNs * freqHz / NS_PER_S, U64_MAX)
  }

  function EmittedAtNs(s: PeriodicSchedule, nowNs: U64): U64 {
    var grown := SatAdd(s.emitted, PulsesIn(SatSub(nowNs, s.sinceNs), s.freqHz));
    match s.total
    case Some(total) => Min(grown, total)
    case None => grown
  }

  function DivCeil(a: nat, b: nat): nat
    requires b > 0
  {
    if a % b == 0 then a / b else a / b + 1
  }

  function CompletesAt(s: PeriodicSchedule): Option<U64> {
    if s.total.None? || s.freqHz == 0 then None
    else
      var remaining := SatSub(s.total.value, s.emitted);
      Some(SatAdd(s.sinceNs, Min(DivCeil(remaining * NS_PER_S, s.freqHz), U64_MAX)))
  }

  function RebasedAtNs(s: PeriodicSchedule, atNs: U64): PeriodicSchedule {
    s.(emitted := EmittedAtNs(s, atNs), sinceNs := if atNs >= s.sinceNs then atNs else s.sinceNs)
  }

  // ----- the count, without its saturations -----

  /** Whole pulses over an elapsed time, in unbounded integers. */
  function Whole(elapsed: nat, freqHz: nat): nat {
    elapsed * freqHz / NS_PER_S
  }

  /** The train's ceiling, or the counter's. */
  function Cap(s: PeriodicSchedule): nat {
    s.total.GetOr(U64_MAX)
  }

  /** However many saturations on the way, the count is the exact one clamped once. */
  lemma ClampedOnce(s: PeriodicSchedule, nowNs: U64)
    ensures EmittedAtNs(s, nowNs) == Min(s.emitted + Whole(SatSub(nowNs, s.sinceNs), s.freqHz), Cap(s))
  {
  }

  /**
   * A pulse below the train's ceiling and the counter's is counted from the instant its own whole seconds' worth of
   * cycles has run, and not before; the count stays below both.
   */
  lemma PulseCounted(s: PeriodicSchedule, nowNs: U64, n: nat)
    requires 0 < n && s.emitted + n <= s.total.GetOr(0xFFFF_FFFF_FFFF_FFFF)
    ensures EmittedAtNs(s, nowNs) >= s.emitted + n <==> SatSub(nowNs, s.sinceNs) * s.freqHz >= n * 1_000_000_000
    ensures EmittedAtNs(s, nowNs) <= s.total.GetOr(0xFFFF_FFFF_FFFF_FFFF)
  {
    ClampedOnce(s, nowNs);
    hide EmittedAtNs;
    FloorReaches(SatSub(nowNs, s.sinceNs) * s.freqHz, n);
  }

  // ----- re-basing -----

  /** Two floors lose at most the carry of their fractions. */
  lemma FloorsSplit(x: nat, y: nat)
    ensures (x + y) / NS_PER_S == x / NS_PER_S + y / NS_PER_S + if x % NS_PER_S + y % NS_PER_S < NS_PER_S then 0 else 1
  {
  }

  /** A pulse straddles the instant: the fractions on either side of it add to a whole one. */
  predicate Straddles(s: PeriodicSchedule, atNs: U64, nowNs: U64)
    requires s.sinceNs <= atNs <= nowNs
  {
    (atNs - s.sinceNs) * s.freqHz % NS_PER_S + (nowNs - atNs) * s.freqHz % NS_PER_S >= NS_PER_S
  }

  lemma WholeSplits(s: PeriodicSchedule, atNs: U64, nowNs: U64)
    requires s.sinceNs <= atNs <= nowNs
    ensures Whole(nowNs - s.sinceNs, s.freqHz) ==
            Whole(atNs - s.sinceNs, s.freqHz) + Whole(nowNs - atNs, s.freqHz) +
            if Straddles(s, atNs, nowNs) then 1 else 0
  {
    var before, after := (atNs - s.sinceNs) * s.freqHz, (nowNs - atNs) * s.freqHz;
    assert (nowNs - s.sinceNs) * s.freqHz == before + after;
    FloorsSplit(before, after);
  }

  /**
   * One re-base: from its anchor on the count never leads the original and trails it by at most a pulse;
   * below the ceiling it trails exactly when a pulse straddled the instant.
   */
  lemma RebaseTrails(s: PeriodicSchedule, atNs: U64, nowNs: U64)
    requires nowNs >= RebasedAtNs(s, atNs).sinceNs
    ensures var exact, rebased := EmittedAtNs(s, nowNs), EmittedAtNs(RebasedAtNs(s, atNs), nowNs);
            && rebased <= exact <= rebased + 1
            && (exact < Cap(s) ==> (rebased < exact <==> atNs >= s.sinceNs && Straddles(s, atNs, nowNs)))
  {
    ClampedOnce(s, nowNs);
    ClampedOnce(s, atNs);
    ClampedOnce(RebasedAtNs(s, atNs), nowNs);
    if atNs >= s.sinceNs {
      WholeSplits(s, atNs, nowNs);
    } else {
      assert Whole(0, s.freqHz) == 0;
    }
    hide Whole, Straddles, EmittedAtNs;
  }

  function RebasedThrough(s: PeriodicSchedule, instants: seq<U64>): PeriodicSchedule {
    if |instants| == 0 then s
    else RebasedAtNs(RebasedThrough(s, instants[..|instants| - 1]), instants[|instants| - 1])
  }

  /**
   * Any chain of re-bases, ceiling and saturation included: the segment it leaves never leads the original
   * and trails it by at most one pulse a re-base, at every instant from its anchor on.
   */
  lemma {:induction false} ChainTrails(s: PeriodicSchedule, instants: seq<U64>, nowNs: U64)
    requires nowNs >= RebasedThrough(s, instants).sinceNs
    ensures var exact, rebased := EmittedAtNs(s, nowNs), EmittedAtNs(RebasedThrough(s, instants), nowNs);
            rebased <= exact <= rebased + |instants|
  {
    if |instants| > 0 {
      var most := instants[..|instants| - 1];
      ChainTrails(s, most, nowNs);
      RebaseTrails(RebasedThrough(s, most), instants[|instants| - 1], nowNs);
    }
  }

  /** The bound is met: a 1 Hz train re-based at 0.6 s and at 1.2 s reads nothing at 2 s, two pulses short. */
  lemma ChainCanTrail()
    ensures var s := PeriodicSchedule(0, 1, None, 0);
            && EmittedAtNs(s, 2_000_000_000) == 2
            && EmittedAtNs(RebasedThrough(s, [600_000_000, 1_200_000_000]), 2_000_000_000) == 0
  {
    var s := PeriodicSchedule(0, 1, None, 0);
    var instants := [600_000_000, 1_200_000_000];
    assert instants[..1] == [600_000_000] && instants[..1][..0] == [];
    assert RebasedThrough(s, instants[..1]) == PeriodicSchedule(0, 1, None, 600_000_000);
  }

  // ----- completion -----

  lemma ProductGrows(a: nat, b: nat, p: nat)
    requires a <= b
    ensures a * p <= b * p
  {
  }

  lemma DivCeilBounds(a: nat, b: nat)
    requires b > 0
    ensures DivCeil(a, b) * b >= a && (DivCeil(a, b) > 0 ==> (DivCeil(a, b) - 1) * b < a)
  {
    var q, r := a / b, a % b;
    assert a == q * b + r;
    assert (q + 1) * b == q * b + b;
    if q > 0 {
      assert (q - 1) * b == q * b - b;
    }
  }

  /** A ceiling division is the least multiplier that reaches. */
  lemma DivCeilLeast(a: nat, b: nat, d: nat)
    requires b > 0
    ensures d * b >= a <==> d >= DivCeil(a, b)
  {
    DivCeilBounds(a, b);
    hide DivCeil;
    var q := DivCeil(a, b);
    if d >= q {
      ProductGrows(q, d, b);
    } else {
      ProductGrows(d, q - 1, b);
    }
  }

  lemma FloorReaches(x: nat, n: nat)
    ensures x / NS_PER_S >= n <==> x >= n * NS_PER_S
  {
  }

  /** A finite train's count has reached its ceiling exactly when the span to it has elapsed. */
  lemma ReachedWhen(s: PeriodicSchedule, nowNs: U64)
    requires s.total.Some? && s.freqHz > 0 && nowNs >= s.sinceNs
    ensures var span := DivCeil(SatSub(s.total.value, s.emitted) * NS_PER_S, s.freqHz);
            EmittedAtNs(s, nowNs) == s.total.value <==> nowNs - s.sinceNs >= span
  {
    var remaining := SatSub(s.total.value, s.emitted);
    ClampedOnce(s, nowNs);
    FloorReaches((nowNs - s.sinceNs) * s.freqHz, remaining);
    DivCeilLeast(remaining * NS_PER_S, s.freqHz, nowNs - s.sinceNs);
    hide DivCeil, EmittedAtNs;
  }

  /** The train is done at `nowNs`: its count is its ceiling. */
  predicate Done(s: PeriodicSchedule, nowNs: U64) {
    s.total.Some? && nowNs >= s.sinceNs && EmittedAtNs(s, nowNs) == s.total.value
  }

  /**
   * The completion instant of a running finite train, whatever its count so far: the first instant its
   * count is its ceiling if any instant of the clock is one, and the clock's last instant if none is.
   */
  lemma CompletesAtIsFirst(s: PeriodicSchedule)
    requires s.total.Some? && s.freqHz > 0
    ensures CompletesAt(s).Some?
    ensures var at := CompletesAt(s).value;
            && at >= s.sinceNs
            && (forall now: U64 :: Done(s, now) ==> at <= now)
            && (if Done(s, at) then (forall now: U64 :: now >= at ==> Done(s, now))
                else at == U64_MAX && forall now: U64 :: !Done(s, now))
  {
    var at := CompletesAt(s).value;
    forall now: U64 | now >= s.sinceNs
      ensures Done(s, now) <==> now - s.sinceNs >= DivCeil(SatSub(s.total.value, s.emitted) * NS_PER_S, s.freqHz)
    {
      ReachedWhen(s, now);
    }
    hide DivCeil, EmittedAtNs;
  }

  /** No completion is named for an unbounded train or a held one; a held one's count never moves again. */
  lemma NeverCompletes(s: PeriodicSchedule, a: U64, b: U64)
    ensures CompletesAt(s).None? <==> s.total.None? || s.freqHz == 0
    ensures s.freqHz == 0 ==> EmittedAtNs(s, a) == EmittedAtNs(s, b)
  {
    ClampedOnce(s, a);
    ClampedOnce(s, b);
  }
}
