/**
 * The receiving half of a serial channel: bytes put together again from the changes of a line's level, each run's
 * bits counted by how long it lasted.
 */
module Decoder {
  import opened Options
  import opened Words
  import opened Uart

  datatype Decoded = Heard(byte: nat) | BadStopBit

  /** The frame in progress, what it has held so far after its start bit, and the frames not yet read. */
  datatype State = State(level: Level, frameStartNs: Option<nat>, bits: seq<bool>, sinceNs: nat, done: seq<Decoded>)

  function FrameBits(framing: Framing): (n: nat)
    ensures n > 0
  {
    1 + framing.dataBits + framing.stopBits
  }

  function FrameNs(framing: Framing): nat {
    FrameBits(framing) * framing.bitPeriodNs
  }

  /** Half a bit before the end of the frame: from here on another start bit is believed. */
  function StopSampledNs(framing: Framing): nat {
    SatSub(FrameNs(framing), framing.bitPeriodNs / 2)
  }

  /** How many bits a level held from `since` to `t` is, to the nearest. */
  function BitsHeld(framing: Framing, since: nat, t: nat): nat {
    var period := if framing.bitPeriodNs == 0 then 1 else framing.bitPeriodNs;
    (SatSub(t, since) + period / 2) / period
  }

  /** The level held up to `t`, as bits, as many as the frame still wants. */
  function Absorbed(framing: Framing, d: State, t: nat): State {
    var count := Min(BitsHeld(framing, d.sinceNs, t), SatSub(FrameBits(framing) - 1, |d.bits|));
    d.(bits := d.bits + seq(count, _ => d.level == High), sinceNs := t)
  }

  function Shift(framing: Framing, i: nat): nat
    requires i < framing.dataBits
  {
    if framing.lsbFirst then i else framing.dataBits - 1 - i
  }

  /** What the first `n` bits are worth, each in its own place. */
  function Weighed(framing: Framing, bits: seq<bool>, n: nat): nat
    requires n <= |bits| && n <= framing.dataBits
  {
    if n == 0 then 0
    else Weighed(framing, bits, n - 1) + if bits[n - 1] then Pow2(Shift(framing, n - 1)) else 0
  }

  predicate StopsHigh(framing: Framing, bits: seq<bool>) {
    forall k :: framing.dataBits <= k < |bits| && k < framing.dataBits + framing.stopBits ==> bits[k]
  }

  function Assembled(framing: Framing, bits: seq<bool>): Decoded {
    if StopsHigh(framing, bits) then Heard(Weighed(framing, bits, Min(|bits|, framing.dataBits))) else BadStopBit
  }

  /** The frame in progress finished, its tail taken to be at the level it was left at. */
  function Closed(framing: Framing, d: State): State
    requires d.frameStartNs.Some?
  {
    var full := Absorbed(framing, d, d.frameStartNs.value + FrameNs(framing));
    full.(done := full.done + [Assembled(framing, full.bits)], frameStartNs := None, bits := [])
  }

  function Changed(framing: Framing, d: State, level: Level, atNs: nat): State {
    if level == Low then
      d.(level := level, frameStartNs := Some(atNs), bits := [], sinceNs := atNs + framing.bitPeriodNs)
    else d.(level := level, sinceNs := atNs)
  }

  function OnLevel(framing: Framing, d: State, level: Level, atNs: nat): State {
    if level == d.level then d
    else if d.frameStartNs.None? then Changed(framing, d, level, atNs)
    else if atNs >= d.frameStartNs.value + StopSampledNs(framing) then
      Changed(framing, Closed(framing, d), level, atNs)
    else Absorbed(framing, d, atNs).(level := level)
  }

  function Polled(framing: Framing, d: State, nowNs: nat): State {
    if d.frameStartNs.Some? && SatSub(nowNs, d.frameStartNs.value) >= FrameNs(framing) then Closed(framing, d) else d
  }

  // ----- the decoder -----

  class UartDecoder {
    const framing: Framing
    var level: Level
    var frameStartNs: Option<nat>
    var bits: seq<bool>
    var sinceNs: nat
    var done: seq<Decoded>

    function Now(): State
      reads this
    {
      State(level, frameStartNs, bits, sinceNs, done)
    }

    constructor (framing: Framing)
      ensures this.framing == framing && Now() == State(High, None, [], 0, [])
    {
      this.framing := framing;
      level, frameStartNs, bits, sinceNs, done := High, None, [], 0, [];
    }

    /** A change of level, observed at `atNs`. */
    method Observe(observed: Level, atNs: nat)
      modifies this
      ensures Now() == OnLevel(framing, old(Now()), observed, atNs)
    {
      if observed == level {
        return;
      }
      if frameStartNs.Some? {
        if atNs >= frameStartNs.value + StopSampledNs(framing) {
          CloseFrame(frameStartNs.value);
        } else {
          AbsorbUntil(atNs);
          level := observed;
          sinceNs := atNs;
          return;
        }
      }
      level := observed;
      sinceNs := atNs;
      if observed == Low {
        frameStartNs := Some(atNs);
        bits := [];
        sinceNs := atNs + framing.bitPeriodNs;
      }
    }

    /** When the frame in progress is over, if there is one. */
    method FrameDeadlineNs() returns (atNs: Option<nat>)
      ensures atNs.Some? <==> frameStartNs.Some?
      ensures atNs.Some? ==> atNs.value == frameStartNs.value + FrameNs(framing)
      ensures atNs.Some? ==> forall now: nat ::
                now >= frameStartNs.value ==> (Polled(framing, Now(), now) != Now() <==> now >= atNs.value)
    {
      atNs := if frameStartNs.Some? then Some(frameStartNs.value + FrameNs(framing)) else None;
    }

    /** The oldest frame not yet read, after time has moved on to `nowNs`. */
    method Poll(nowNs: nat) returns (frame: Option<Decoded>)
      modifies this
      ensures var d := Polled(framing, old(Now()), nowNs);
              && Now() == d.(done := if d.done == [] then [] else d.done[1..])
              && frame == if d.done == [] then None else Some(d.done[0])
    {
      if frameStartNs.Some? && SatSub(nowNs, frameStartNs.value) >= FrameNs(framing) {
        CloseFrame(frameStartNs.value);
      }
      if done == [] {
        return None;
      }
      frame := Some(done[0]);
      done := done[1..];
    }

    method CloseFrame(start: nat)
      requires frameStartNs == Some(start)
      modifies this
      ensures Now() == Closed(framing, old(Now()))
    {
      AbsorbUntil(start + FrameNs(framing));
      var outcome := Assemble();
      done := done + [outcome];
      frameStartNs := None;
      bits := [];
    }

    method AbsorbUntil(t: nat)
      modifies this
      ensures Now() == Absorbed(framing, old(Now()), t)
    {
      var count := BitsHeld(framing, sinceNs, t);
      var want := FrameBits(framing) - 1;
      var high := level == High;
      var i := 0;
      while i < count && |bits| < want
        invariant i <= count && (i > 0 ==> |bits| <= want)
        invariant bits == old(bits) + seq(i, _ => high)
        invariant level == old(level) && frameStartNs == old(frameStartNs) && sinceNs == old(sinceNs) &&
                  done == old(done)
      {
        bits := bits + [high];
        i := i + 1;
      }
      sinceNs := t;
    }

    method Assemble() returns (outcome: Decoded)
      ensures outcome == Assembled(framing, bits)
    {
      var byte := 0;
      var n := Min(|bits|, framing.dataBits);
      for i := 0 to n
        invariant byte == Weighed(framing, bits, i)
      {
        if bits[i] {
          byte := byte + Pow2(if framing.lsbFirst then i else framing.dataBits - 1 - i);
        }
      }
      var stopsOk := forall k :: framing.dataBits <= k < |bits| && k < framing.dataBits + framing.stopBits ==> bits[k];
      outcome := if stopsOk then Heard(byte) else BadStopBit;
    }
  }
}
