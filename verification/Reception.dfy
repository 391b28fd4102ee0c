/**
 * The receiving half of a bridge over a burst: senses at the pin and services, each handing over what is heard by
 * then.
 */
module Reception {
  import opened Options
  import opened Words
  import opened Uart
  import opened Serial
  import D = Decoder
  import R = DecoderRuns

  /** The pin is sensed at the line's next level, or at a voltage that is none; or the bridge is serviced. */
  datatype Step = Sense | NoLevel(atNs: nat) | Service(nowNs: nat)

  predicate Can(framing: Framing, burst: R.Burst, w: R.World, step: Step)
    requires |burst.starts| == |burst.bytes|
  {
    match step
    case Sense => R.MoreToSend(framing, burst, w)
    case NoLevel(at) => R.Can(framing, burst, w, R.Read(at))
    case Service(now) => R.Can(framing, burst, w, R.Read(now))
  }

  /** The decoder drained at `now`: what it has heard by then handed over, and nothing left waiting. */
  function HandedOver(framing: Framing, w: R.World, heard: D.State, now: nat): R.World {
    w.(nowNs := now, decoder := Drained(framing, heard, now), out := w.out + Taken(framing, heard, now))
  }

  function Next(framing: Framing, burst: R.Burst, w: R.World, step: Step): R.World
    requires |burst.starts| == |burst.bytes| && Can(framing, burst, w, step)
  {
    match step
    case Sense =>
      var (k, n) := R.Upcoming(framing, w);
      var at := R.EdgeNs(framing, burst, w);
      var level := Some(Frame(framing, burst.bytes[k])[n]);
      HandedOver(framing, w.(k := k, n := n + 1), Sensed(framing, w.decoder, level, at), at)
    case NoLevel(at) => HandedOver(framing, w, Sensed(framing, w.decoder, None, at), at)
    case Service(now) => HandedOver(framing, w, w.decoder, now)
  }

  ghost predicate Runs(framing: Framing, burst: R.Burst, worlds: seq<R.World>, steps: seq<Step>) {
    && |worlds| == |steps| + 1 && |burst.starts| == |burst.bytes| && worlds[0] == R.World(0, 0, 0, R.QUIET, [])
    && forall i :: 0 <= i < |steps| ==>
         Can(framing, burst, worlds[i], steps[i]) && worlds[i + 1] == Next(framing, burst, worlds[i], steps[i])
  }

  /** Everything heard has been handed over. */
  ghost predicate InStep(framing: Framing, burst: R.Burst, w: R.World)
    requires |burst.starts| == |burst.bytes|
  {
    R.InStep(framing, burst, w) && w.n <= D.FrameBits(framing) && w.decoder.done == []
  }

  lemma DrainKeeps(framing: Framing, burst: R.Burst, w: R.World, now: nat)
    requires R.Sent(framing, burst) && R.InStep(framing, burst, w) && w.n <= D.FrameBits(framing)
    requires R.Can(framing, burst, w, R.Read(now))
    ensures InStep(framing, burst, HandedOver(framing, w, w.decoder, now))
    ensures R.Open(framing, burst, w) && now >= burst.starts[w.k] + D.FrameNs(framing) ==>
              R.Shut(framing, burst, HandedOver(framing, w, w.decoder, now))
  {
    hide R.Shut, R.Open, D.Polled, R.Tolerates, R.Spans;
    R.PolledKeeps(framing, burst, w, now);
    R.TakenKeeps(framing, burst, w.(decoder := D.Polled(framing, w.decoder, now)),
                 HandedOver(framing, w, w.decoder, now));
  }

  /** No level of the line comes before the one before it. */
  lemma LevelsInOrder(framing: Framing, burst: R.Burst, w: R.World)
    requires R.Sent(framing, burst) && R.MoreToSend(framing, burst, w)
    ensures R.Can(framing, burst, R.Next(framing, burst, w, R.Edge), R.Read(R.EdgeNs(framing, burst, w)))
  {
    hide D.OnLevel, R.Tolerates, R.Spans, Frame;
    var (k, n) := R.Upcoming(framing, w);
    R.SpansMore(n, n + 1, burst.periodNs);
    R.SpansMore(n, D.FrameBits(framing), burst.periodNs);
    R.NoSpan(burst.periodNs);
  }

  lemma SenseIsEdge(framing: Framing, burst: R.Burst, w: R.World)
    requires |burst.starts| == |burst.bytes| && R.MoreToSend(framing, burst, w)
    ensures var t := R.Next(framing, burst, w, R.Edge);
            Next(framing, burst, w, Sense) == HandedOver(framing, t, t.decoder, t.nowNs)
  {
    hide D.OnLevel, Drained, Taken, Frame, R.Spans;
  }

  lemma StepKeeps(framing: Framing, burst: R.Burst, w: R.World, step: Step)
    requires R.Sent(framing, burst) && InStep(framing, burst, w) && Can(framing, burst, w, step)
    ensures InStep(framing, burst, Next(framing, burst, w, step))
  {
    hide R.InStep, R.Tolerates, D.OnLevel, D.Polled, R.Spans, Frame;
    match step
    case Sense =>
      var t := R.Next(framing, burst, w, R.Edge);
      R.EdgeKeeps(framing, burst, w);
      LevelsInOrder(framing, burst, w);
      SenseIsEdge(framing, burst, w);
      DrainKeeps(framing, burst, t, t.nowNs);
    case NoLevel(at) =>
      DrainKeeps(framing, burst, w, at);
    case Service(now) =>
      DrainKeeps(framing, burst, w, now);
  }

  lemma {:induction false} AlwaysInStep(framing: Framing, burst: R.Burst, worlds: seq<R.World>, steps: seq<Step>,
                                        i: nat)
    requires Runs(framing, burst, worlds, steps) && R.Sent(framing, burst) && i < |worlds|
    ensures InStep(framing, burst, worlds[i])
  {
    hide Next, Can, R.Sent;
    if i == 0 {
      R.QuietShut(framing, burst);
    } else {
      AlwaysInStep(framing, burst, worlds, steps, i - 1);
      StepKeeps(framing, burst, worlds[i - 1], steps[i - 1]);
    }
  }

  /**
   * Whatever senses and services a burst is received by, a service at or after the deadline of the frame on the line
   * leaves handed over every byte of the burst up to that frame, in order and none else, and no frame open; whole
   * where frames carry eight bits.
   */
  lemma AllHandedOver(framing: Framing, burst: R.Burst, worlds: seq<R.World>, steps: seq<Step>, i: nat)
    requires Runs(framing, burst, worlds, steps) && R.Sent(framing, burst) && i < |steps| && steps[i].Service?
    requires worlds[i].n > 0 && worlds[i].k < |burst.bytes|
    requires steps[i].nowNs >= burst.starts[worlds[i].k] + D.FrameNs(framing)
    ensures var (w, k) := (worlds[i + 1], worlds[i].k);
            && w.out == R.HeardAs(framing, burst.bytes[..k + 1])
            && w.decoder.frameStartNs.None? && w.decoder.done == []
            && (framing.dataBits >= 8 ==> forall j :: 0 <= j <= k ==> w.out[j] == D.Heard(burst.bytes[j]))
  {
    hide R.Spans, D.FrameNs, R.HeardAs, R.Tolerates, R.Open, Drained, Taken;
    var w := worlds[i];
    AlwaysInStep(framing, burst, worlds, steps, i);
    AlwaysInStep(framing, burst, worlds, steps, i + 1);
    DrainKeeps(framing, burst, w, steps[i].nowNs);
    if R.Shut(framing, burst, w) {
      ShutStays(framing, burst, w, steps[i].nowNs);
    }
    if framing.dataBits >= 8 {
      WholeHeard(framing, burst.bytes[..w.k + 1]);
    }
  }

  lemma ShutStays(framing: Framing, burst: R.Burst, w: R.World, now: nat)
    requires |burst.starts| == |burst.bytes| && InStep(framing, burst, w) && R.Shut(framing, burst, w)
    ensures R.Shut(framing, burst, HandedOver(framing, w, w.decoder, now))
  {
    hide R.HeardAs;
    assert w.out + [] == w.out;
  }

  lemma WholeHeard(framing: Framing, bytes: seq<Byte>)
    requires framing.dataBits >= 8
    ensures forall j :: 0 <= j < |bytes| ==> R.HeardAs(framing, bytes)[j] == D.Heard(bytes[j])
  {
    forall j: nat | j < |bytes| ensures R.HeardAs(framing, bytes)[j] == D.Heard(bytes[j]) {
      R.EightKept(framing, bytes[j]);
    }
  }
}
