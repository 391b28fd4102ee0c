/** A digital receiver: voltages projected to levels by thresholds, hysteresis and the level last read. */
module Receiver {
  import opened Options
  import opened Uart
  import opened Circuit
  import Pulses

  datatype DeadBand = HoldLast | Unknown

  datatype Thresholds = Thresholds(vIl: real, vIh: real, hysteresis: real, deadBand: DeadBand)

  /** A square wave as it is sensed: a voltage in each phase, where the phase names one, and its segment. */
  datatype PeriodicSense = PeriodicSense(hi: Option<Num>, lo: Option<Num>, segment: Pulses.PeriodicSchedule)

  datatype Sense = Sense(volts: Option<Num>, periodic: Option<PeriodicSense>)

  // ----- the projection, as the receiver computes it -----

  function Project(th: Thresholds, volts: Num, last: Option<Level>): Option<Level> {
    match volts
    case NonFinite => None
    case Finite(v) =>
      if v <= th.vIl then Some(Low)
      else if v >= th.vIh then Some(High)
      else if last == Some(High) && v >= th.vIh - th.hysteresis then Some(High)
      else if last == Some(Low) && v <= th.vIl + th.hysteresis then Some(Low)
      else
        match th.deadBand
        case HoldLast => last
        case Unknown => None
  }

  function ProjectPhase(th: Thresholds, volts: Option<Num>, from: Option<Level>): Option<Level> {
    if volts.None? then None else Project(th, volts.value, from)
  }

  /** `n` cycles of the wave, entered from `last`: each phase projected from the level the other left. */
  function Cycles(th: Thresholds, wave: PeriodicSense, last: Option<Level>, n: nat): (Option<Level>, Option<Level>) {
    if n == 0 then (None, last)
    else
      var before := Cycles(th, wave, last, n - 1);
      var hi := ProjectPhase(th, wave.hi, before.1);
      (hi, ProjectPhase(th, wave.lo, hi))
  }

  method Levels(th: Thresholds, wave: PeriodicSense, last: Option<Level>) returns (hi: Option<Level>, lo: Option<Level>)
    ensures (hi, lo) == Cycles(th, wave, last, 2)
  {
    hi, lo := None, last;
    for n := 0 to 2
      invariant (hi, lo) == Cycles(th, wave, last, n)
    {
      hi := ProjectPhase(th, wave.hi, lo);
      lo := ProjectPhase(th, wave.lo, hi);
    }
  }

  function Rate(th: Thresholds, wave: PeriodicSense): Option<Pulses.PeriodicSchedule> {
    if wave.segment.freqHz == 0 then None
    else
      var (hi, lo) := Cycles(th, wave, None, 2);
      if hi.Some? && lo.Some? && hi != lo then Some(wave.segment) else None
  }

  function LevelOf(th: Thresholds, sense: Sense, last: Option<Level>): Option<Level> {
    match (sense.volts, sense.periodic)
    case (Some(v), _) => Project(th, v, last)
    case (None, Some(wave)) =>
      var (hi, lo) := Cycles(th, wave, last, 2);
      if hi == lo then hi else None
    case (None, None) => None
  }

  // ----- what a voltage does, whatever came before it -----

  /** The voltage reads `level` by itself: outside the dead band, on that side. */
  predicate Forces(th: Thresholds, volts: Option<Num>, level: Level) {
    volts.Some? && volts.value.Finite? &&
    match level
    case Low => volts.value.r <= th.vIl
    case High => volts.value.r > th.vIl && volts.value.r >= th.vIh
  }

  predicate InBand(th: Thresholds, volts: Option<Num>) {
    volts.Some? && volts.value.Finite? && th.vIl < volts.value.r < th.vIh
  }

  /**
   * A receiver that last read `level` reads it still: forced to, or in the band and holding or within the hysteresis.
   */
  predicate Keeps(th: Thresholds, volts: Option<Num>, level: Level) {
    || Forces(th, volts, level)
    || (InBand(th, volts) &&
        (|| th.deadBand == HoldLast
         || (level == High && volts.value.r >= th.vIh - th.hysteresis)
         || (level == Low && volts.value.r <= th.vIl + th.hysteresis)))
  }

  /** A projection reads a level exactly when the voltage forces it, or keeps the one last read. */
  lemma ProjectsTo(th: Thresholds, volts: Option<Num>, last: Option<Level>, level: Level)
    ensures ProjectPhase(th, volts, last) == Some(level) <==>
              Forces(th, volts, level) || (last == Some(level) && Keeps(th, volts, level))
  {
  }

  /**
   * A level once forced stands through any swing of up to the hysteresis that does not reach the other threshold; and
   * from a voltage at its own threshold, where the dead band reads as unknown, through no longer one.
   */
  lemma SwingsHold(th: Thresholds, v: real, u: real)
    requires th.vIl < th.vIh
    ensures v >= th.vIh && v - u <= th.hysteresis && u > th.vIl ==> Project(th, Finite(u), Some(High)) == Some(High)
    ensures v <= th.vIl && u - v <= th.hysteresis && u < th.vIh ==> Project(th, Finite(u), Some(Low)) == Some(Low)
    ensures v == th.vIh && th.vIl < u < th.vIh && v - u > th.hysteresis && th.deadBand == Unknown ==>
              Project(th, Finite(u), Some(High)) == None
    ensures v == th.vIl && th.vIl < u < th.vIh && u - v > th.hysteresis && th.deadBand == Unknown ==>
              Project(th, Finite(u), Some(Low)) == None
  {
  }

  // ----- the running wave -----

  lemma CycleByCycle(th: Thresholds, wave: PeriodicSense, last: Option<Level>)
    ensures var one, two := Cycles(th, wave, last, 1), Cycles(th, wave, last, 2);
            && one.0 == ProjectPhase(th, wave.hi, last) && one.1 == ProjectPhase(th, wave.lo, one.0)
            && two.0 == ProjectPhase(th, wave.hi, one.1) && two.1 == ProjectPhase(th, wave.lo, two.0)
  {
    assert Cycles(th, wave, last, 0).1 == last;
  }

  /** Whatever level the wave is entered from, two cycles reach the pair every further cycle repeats. */
  lemma {:induction false} TwoCyclesSettle(th: Thresholds, wave: PeriodicSense, last: Option<Level>, n: nat)
    requires n >= 2
    ensures Cycles(th, wave, last, n) == Cycles(th, wave, last, 2)
  {
    if n > 2 {
      TwoCyclesSettle(th, wave, last, n - 1);
      ThirdRepeats(th, wave, last);
      assert Cycles(th, wave, last, n) == Cycles(th, wave, last, 3);
    }
  }

  lemma ThirdRepeats(th: Thresholds, wave: PeriodicSense, last: Option<Level>)
    ensures Cycles(th, wave, last, 3) == Cycles(th, wave, last, 2)
  {
    var one, two, three := Cycles(th, wave, last, 1), Cycles(th, wave, last, 2), Cycles(th, wave, last, 3);
    forall level: Level
      ensures two.0 == Some(level) <==> three.0 == Some(level)
      ensures two.1 == Some(level) <==> three.1 == Some(level)
    {
      PhaseAfter(th, wave, last, level);
    }
    assert two.0.Some? ==> three.0 == Some(two.0.value);
    assert three.0.Some? ==> two.0 == Some(three.0.value);
    assert two.1.Some? ==> three.1 == Some(two.1.value);
    assert three.1.Some? ==> two.1 == Some(three.1.value);
  }

  /** What the second cycle reads in each phase, and so does the third. */
  lemma PhaseAfter(th: Thresholds, wave: PeriodicSense, last: Option<Level>, level: Level)
    ensures Cycles(th, wave, last, 2).0 == Some(level) <==> Cycles(th, wave, last, 3).0 == Some(level)
    ensures Cycles(th, wave, last, 2).1 == Some(level) <==> Cycles(th, wave, last, 3).1 == Some(level)
  {
    CycleByCycle(th, wave, last);
    var one, two := Cycles(th, wave, last, 1), Cycles(th, wave, last, 2);
    ProjectsTo(th, wave.hi, last, level);
    ProjectsTo(th, wave.lo, one.0, level);
    ProjectsTo(th, wave.hi, one.1, level);
    ProjectsTo(th, wave.lo, two.0, level);
    ProjectsTo(th, wave.hi, two.1, level);
    ProjectsTo(th, wave.lo, Cycles(th, wave, last, 3).0, level);
  }

  /** The two phases settle to one level exactly when both keep it and it was last read or one forces it. */
  lemma SettlesTo(th: Thresholds, wave: PeriodicSense, last: Option<Level>, level: Level)
    ensures Cycles(th, wave, last, 2) == (Some(level), Some(level)) <==>
            && Keeps(th, wave.hi, level) && Keeps(th, wave.lo, level)
            && (last == Some(level) || Forces(th, wave.hi, level) || Forces(th, wave.lo, level))
  {
    CycleByCycle(th, wave, last);
    var one, two := Cycles(th, wave, last, 1), Cycles(th, wave, last, 2);
    ProjectsTo(th, wave.hi, last, level);
    ProjectsTo(th, wave.lo, one.0, level);
    ProjectsTo(th, wave.hi, one.1, level);
    ProjectsTo(th, wave.lo, two.0, level);
  }

  /**
   * The two phases settle to two levels exactly when both are outside the band, on opposite sides, whatever came
   * before.
   */
  lemma SettlesApart(th: Thresholds, wave: PeriodicSense, last: Option<Level>, hi: Level, lo: Level)
    requires hi != lo
    ensures Cycles(th, wave, last, 2) == (Some(hi), Some(lo)) <==> Forces(th, wave.hi, hi) && Forces(th, wave.lo, lo)
  {
    CycleByCycle(th, wave, last);
    var one, two := Cycles(th, wave, last, 1), Cycles(th, wave, last, 2);
    ProjectsTo(th, wave.hi, one.1, hi);
    ProjectsTo(th, wave.lo, two.0, lo);
    ProjectsTo(th, wave.lo, one.0, hi);
    ProjectsTo(th, wave.lo, one.0, lo);
  }

  /** A segment is a rate exactly when it runs and its phases lie outside the band on opposite sides. */
  lemma RateWhen(th: Thresholds, wave: PeriodicSense)
    ensures Rate(th, wave).Some? <==>
            && wave.segment.freqHz > 0
            && (|| (Forces(th, wave.hi, High) && Forces(th, wave.lo, Low))
                || (Forces(th, wave.hi, Low) && Forces(th, wave.lo, High)))
    ensures Rate(th, wave).Some? ==> Rate(th, wave).value == wave.segment
  {
    SettlesApart(th, wave, None, High, Low);
    SettlesApart(th, wave, None, Low, High);
  }

  /** Neither the policy, nor the hysteresis, nor what was read before makes a wave a clock or stops it being one. */
  lemma RateIsItsOwn(th: Thresholds, other: Thresholds, wave: PeriodicSense, last: Option<Level>)
    requires th.vIl == other.vIl && th.vIh == other.vIh
    ensures Rate(th, wave) == Rate(other, wave)
    ensures var (hi, lo) := Cycles(th, wave, last, 2);
            wave.segment.freqHz > 0 ==> (Rate(th, wave).Some? <==> hi.Some? && lo.Some? && hi != lo)
  {
    RateWhen(th, wave);
    RateWhen(other, wave);
    var (hi, lo) := Cycles(th, wave, last, 2);
    SettlesApart(th, wave, last, High, Low);
    SettlesApart(th, wave, last, Low, High);
  }

  // ----- whole sequences of samples -----

  /** A delivery, and the thresholds the pin resolved when it was read; none while its supply names none. */
  datatype Sample = Sample(thresholds: Option<Thresholds>, sense: Sense)

  function Read(sample: Sample, last: Option<Level>): Option<Level> {
    if sample.thresholds.None? then None else LevelOf(sample.thresholds.value, sample.sense, last)
  }

  function ReadAll(samples: seq<Sample>): Option<Level> {
    if |samples| == 0 then None else Read(samples[|samples| - 1], ReadAll(samples[..|samples| - 1]))
  }

  /** The voltages a delivery is judged by: the steady one, or else both phases of the wave. */
  function Phases(sense: Sense): seq<Option<Num>> {
    if sense.volts.Some? then [sense.volts]
    else if sense.periodic.Some? then [sense.periodic.value.hi, sense.periodic.value.lo]
    else []
  }

  ghost predicate SampleForces(sample: Sample, level: Level) {
    sample.thresholds.Some? && exists v :: v in Phases(sample.sense) && Forces(sample.thresholds.value, v, level)
  }

  ghost predicate SampleKeeps(sample: Sample, level: Level) {
    && sample.thresholds.Some? && Phases(sample.sense) != []
    && forall v :: v in Phases(sample.sense) ==> Keeps(sample.thresholds.value, v, level)
  }

  lemma ReadsTo(sample: Sample, last: Option<Level>, level: Level)
    ensures Read(sample, last) == Some(level) <==>
              SampleKeeps(sample, level) && (last == Some(level) || SampleForces(sample, level))
  {
    if sample.thresholds.Some? {
      var th, sense := sample.thresholds.value, sample.sense;
      if sense.volts.Some? {
        assert Phases(sense) == [sense.volts] && sense.volts in Phases(sense);
        ProjectsTo(th, sense.volts, last, level);
      } else if sense.periodic.Some? {
        var wave := sense.periodic.value;
        assert Phases(sense) == [wave.hi, wave.lo] && wave.hi in Phases(sense) && wave.lo in Phases(sense);
        SettlesTo(th, wave, last, level);
      }
      hide Forces, Keeps, Cycles, Project;
    }
  }

  /** Some sample forced the level, and it and every sample since keeps it. */
  ghost predicate HeldSince(samples: seq<Sample>, level: Level, i: nat) {
    && i < |samples| && SampleForces(samples[i], level)
    && forall j :: i <= j < |samples| ==> SampleKeeps(samples[j], level)
  }

  /**
   * What a receiver reads after any samples, at whatever thresholds each: a level exactly when some sample's
   * voltage forced it and no sample since, that one included, failed to keep it.
   */
  lemma {:induction false} ReadsWhatWasForced(samples: seq<Sample>, level: Level)
    ensures ReadAll(samples) == Some(level) <==> exists i: nat :: HeldSince(samples, level, i)
  {
    if |samples| > 0 {
      var before, last := samples[..|samples| - 1], samples[|samples| - 1];
      ReadsWhatWasForced(before, level);
      ReadsTo(last, ReadAll(before), level);
      hide SampleForces, SampleKeeps, Read;
      if ReadAll(samples) == Some(level) {
        if SampleForces(last, level) {
          assert HeldSince(samples, level, |samples| - 1);
        } else {
          var i: nat :| HeldSince(before, level, i);
          assert HeldSince(samples, level, i) by {
            forall j | i <= j < |samples| ensures SampleKeeps(samples[j], level) {
              if j < |before| { assert before[j] == samples[j]; }
            }
          }
        }
      }
      if i: nat :| HeldSince(samples, level, i) && !SampleForces(last, level) {
        assert HeldSince(before, level, i);
      }
    }
  }

  /** A voltage a delivery names. */
  ghost predicate Saw(sample: Sample, v: real) {
    Some(Finite(v)) in Phases(sample.sense)
  }

  /** A delivery that names a voltage at or above V_IH, with none at or below V_IL in it or since. */
  ghost predicate HighSince(th: Thresholds, samples: seq<Sample>, i: nat) {
    && i < |samples| && (exists v: real :: Saw(samples[i], v) && v >= th.vIh)
    && forall j, v: real :: i <= j < |samples| && Saw(samples[j], v) ==> v > th.vIl
  }

  /** At fixed thresholds a high read means a voltage at or above V_IH was seen, and none at or below V_IL since. */
  lemma {:induction false} HighWasReached(th: Thresholds, samples: seq<Sample>)
    requires forall k :: 0 <= k < |samples| ==> samples[k].thresholds == Some(th)
    requires ReadAll(samples) == Some(High)
    ensures exists i: nat :: HighSince(th, samples, i)
  {
    ReadsWhatWasForced(samples, High);
    var i: nat :| HeldSince(samples, High, i);
    var v :| v in Phases(samples[i].sense) && Forces(th, v, High);
    assert Saw(samples[i], v.value.r);
    forall j, u: real | i <= j < |samples| && Saw(samples[j], u) ensures u > th.vIl {
      assert SampleKeeps(samples[j], High) && Keeps(th, Some(Finite(u)), High);
    }
    assert HighSince(th, samples, i);
  }

  /** A delivery that names a voltage at or below V_IL, with none at or above V_IH in it or since. */
  ghost predicate LowSince(th: Thresholds, samples: seq<Sample>, i: nat) {
    && i < |samples| && (exists v: real :: Saw(samples[i], v) && v <= th.vIl)
    && forall j, v: real :: i <= j < |samples| && Saw(samples[j], v) ==> v < th.vIh || v <= th.vIl
  }

  /** A low read means a voltage at or below V_IL was seen, and none at or above V_IH since. */
  lemma {:induction false} LowWasReached(th: Thresholds, samples: seq<Sample>)
    requires forall k :: 0 <= k < |samples| ==> samples[k].thresholds == Some(th)
    requires ReadAll(samples) == Some(Low)
    ensures exists i: nat :: LowSince(th, samples, i)
  {
    ReadsWhatWasForced(samples, Low);
    var i: nat :| HeldSince(samples, Low, i);
    var v :| v in Phases(samples[i].sense) && Forces(th, v, Low);
    assert Saw(samples[i], v.value.r);
    forall j, u: real | i <= j < |samples| && Saw(samples[j], u) ensures u < th.vIh || u <= th.vIl {
      assert SampleKeeps(samples[j], Low) && Keeps(th, Some(Finite(u)), Low);
    }
    assert LowSince(th, samples, i);
  }

  // ----- the receiver -----

  class DigitalReceiver {
    /** What the next delivery starts from, as a code: `Last` reads it. */
    var last: nat
    ghost var samples: seq<Sample>

    ghost predicate Valid()
      reads this
    {
      last <= 2 && Last() == ReadAll(samples)
    }

    function Last(): Option<Level>
      reads this
    {
      match last
      case 1 => Some(Low)
      case 2 => Some(High)
      case _ => None
    }

    constructor ()
      ensures Valid() && samples == []
    {
      last, samples := 0, [];
    }

    /** Project a delivery from the level last read and remember the result, no level included. */
    method ReadSense(sample: Sample) returns (level: Option<Level>)
      requires Valid()
      modifies this
      ensures Valid() && samples == old(samples) + [sample]
      ensures level == Last() == Read(sample, old(Last()))
    {
      level := Read(sample, Last());
      last := match level
        case None => 0
        case Some(Low) => 1
        case Some(High) => 2;
      samples := samples + [sample];
      assert samples[..|samples| - 1] == old(samples);
    }
  }
}
