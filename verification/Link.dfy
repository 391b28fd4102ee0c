/**
 * A bridge and a decoder at the far end of its line: what is transmitted is what is heard. The line is read off the
 * pin itself, at the instants the bridge is serviced.
 */
module Link {
  import opened Options
  import opened Words
  import opened Uart
  import opened Serial
  import D = Decoder
  import R = DecoderRuns

  /**
   * The bridge, the far decoder and what was read of it, the bytes the transmits handed over that there was room for,
   * and when each frame on the line began.
   */
  datatype World = World(b: Bridge, far: D.State, out: seq<D.Decoded>, nowNs: nat, taken: seq<Byte>, starts: seq<nat>)

  datatype Step = Transmit(bytes: seq<Byte>, clock: nat) | Wake(now: nat, rxDeadline: Option<nat>) | Read(nowNs: nat)

  /** Time moves on, and on a punctual engine never past an edge that is still to be driven. */
  predicate Can(w: World, step: Step) {
    match step
    case Transmit(_, _) => true
    case Wake(now, _) => w.nowNs <= now && (w.b.nextEdgeNs.Some? ==> now <= w.b.nextEdgeNs.value)
    case Read(now) => w.nowNs <= now && (w.b.nextEdgeNs.Some? ==> now <= w.b.nextEdgeNs.value)
  }

  /** How many of `bytes` a queue of 4096 takes. */
  function Takes(queued: nat, bytes: seq<Byte>): (n: nat)
    ensures n <= |bytes|
  {
    if queued + |bytes| <= 4096 then |bytes| else if queued <= 4096 then 4096 - queued else 0
  }

  /** What the pin presents reaches the far decoder, if it presents anything. */
  function Seen(framing: Framing, far: D.State, line: Option<Level>, at: nat): D.State {
    if line.Some? then D.OnLevel(framing, far, line.value, at) else far
  }

  function Next(framing: Framing, w: World, step: Step): World
    requires Can(w, step)
  {
    match step
    case Transmit(bytes, clock) =>
      w.(b := Transmitted(w.b, bytes, clock), taken := w.taken + bytes[..Takes(|w.b.pending|, bytes)])
    case Wake(now, rx) =>
      var b := Serviced(framing, w.b, now, rx);
      World(b, Seen(framing, w.far, b.line, now), w.out, now, w.taken,
            if w.b.bits == [] && b.driven != w.b.driven then w.starts + [now] else w.starts)
    case Read(now) =>
      var d := D.Polled(framing, w.far, now);
      if d.done == [] then w.(nowNs := now, far := d)
      else w.(nowNs := now, far := d.(done := d.done[1..]), out := w.out + [d.done[0]])
  }

  /** A new bridge, its line not yet driven or parked at high, and a decoder that has heard nothing. */
  ghost predicate Fresh(w: World) {
    && w.b.pending == [] && w.b.bits == [] && w.b.nextEdgeNs.None? && w.b.enabled && !w.b.shutdown
    && (w.b.line == None || w.b.line == Some(High)) && w.b.accepted == [] && w.b.driven == []
    && w.far == R.QUIET && w.out == [] && w.taken == [] && w.starts == []
  }

  ghost predicate Runs(framing: Framing, worlds: seq<World>, steps: seq<Step>) {
    && |worlds| == |steps| + 1 && Fresh(worlds[0])
    && forall k :: 0 <= k < |steps| ==> Can(worlds[k], steps[k]) && worlds[k + 1] == Next(framing, worlds[k], steps[k])
  }

  // ----- the line and the decoder in step -----

  /** The frames begun so far, as the decoder's own machine sees them. */
  function Begun(framing: Framing, w: World): R.Burst
    requires |w.starts| <= |w.taken|
  {
    R.Burst(w.taken[..|w.starts|], w.starts, framing.bitPeriodNs)
  }

  /** How many levels of the last frame begun are on the line. */
  function Driven(framing: Framing, w: World): nat {
    if w.starts == [] then 0 else SatSub(D.FrameBits(framing), |w.b.bits|)
  }

  function Heard(framing: Framing, w: World): R.World {
    R.World(if w.starts == [] then 0 else |w.starts| - 1, Driven(framing, w), w.nowNs, w.far, w.out)
  }

  ghost predicate InStep(framing: Framing, w: World) {
    && w.b.enabled && !w.b.shutdown && |w.starts| <= |w.taken|
    && w.taken[|w.starts|..] == w.b.pending
    && w.b.accepted == w.taken
    && R.Sent(framing, Begun(framing, w)) && R.InStep(framing, Begun(framing, w), Heard(framing, w))
    && (w.starts == [] ==> w.b.bits == [] && w.b.nextEdgeNs.None? && (w.b.line.None? || w.b.line == Some(High)))
    && (w.starts != [] ==>
          var (k, n) := (|w.starts| - 1, Driven(framing, w));
          var levels := Frame(framing, w.taken[k]);
          && 0 < n <= D.FrameBits(framing) && w.b.bits == levels[n..] && w.b.line == Some(levels[n - 1])
          && w.starts[k] <= w.nowNs
          && (w.b.nextEdgeNs.Some? ==> w.b.nextEdgeNs.value == w.starts[k] + R.Spans(n, framing.bitPeriodNs))
          && (w.b.nextEdgeNs.None? ==> n == D.FrameBits(framing) && w.starts[k] + D.FrameNs(framing) <= w.nowNs))
  }

  lemma FrameEnds(framing: Framing, byte: Byte)
    requires framing.stopBits > 0
    ensures |Frame(framing, byte)| == D.FrameBits(framing) && Frame(framing, byte)[0] == Low
    ensures Frame(framing, byte)[D.FrameBits(framing) - 1] == High
  {
  }

  /** The decoder holds the level the pin is at: another look at it changes nothing. */
  lemma LevelHeld(framing: Framing, w: World, at: nat)
    requires InStep(framing, w)
    ensures Seen(framing, w.far, w.b.line, at) == w.far
  {
    hide Frame, R.HeardAs, R.Spans, D.FrameBits;
    if w.starts != [] {
      FrameEnds(framing, w.taken[|w.starts| - 1]);
    }
  }

  lemma SlotAside(framing: Framing, b: Bridge, armed: Option<nat>, now: nat)
    ensures Clocked(framing, b.(armedNs := armed), now) == Clocked(framing, b, now).(armedNs := armed)
    ensures Clocked(framing, b, now).enabled == b.enabled
  {
    hide Frame;
  }

  lemma ArmedAside(b: Bridge, at: Option<nat>)
    ensures var t := ArmedIf(b, at); t == b.(armedNs := t.armedNs, wheel := t.wheel)
  {
  }

  /** A service leaves the transmitter as the clocking alone does: it only frees and arms the slot beside it. */
  lemma ServicedClocks(framing: Framing, b: Bridge, now: nat, rx: Option<nat>)
    requires b.enabled
    ensures var (s, c) := (Serviced(framing, b, now, rx), Clocked(framing, b, now));
            s == c.(armedNs := s.armedNs, wheel := s.wheel)
  {
    hide Clocked, ArmedIf;
    var armed := Delivered(b, now).armedNs;
    assert Delivered(b, now) == b.(armedNs := armed);
    SlotAside(framing, b, armed, now);
    var clocked := Clocked(framing, b.(armedNs := armed), now);
    ArmedAside(clocked, Sooner(NextEdge(clocked), rx));
  }

  lemma TransmittedQueues(b: Bridge, bytes: seq<Byte>, clock: nat)
    requires b.enabled && !b.shutdown
    ensures var t := Transmitted(b, bytes, clock);
            var took := bytes[..Takes(|b.pending|, bytes)];
            t == b.(pending := b.pending + took, accepted := b.accepted + took, armedNs := t.armedNs, wheel := t.wheel)
  {
  }

  lemma TransmitKeeps(framing: Framing, w: World, bytes: seq<Byte>, clock: nat)
    requires InStep(framing, w)
    ensures InStep(framing, Next(framing, w, Transmit(bytes, clock)))
  {
    hide R.InStep, R.Sent, Frame, R.Spans, D.FrameNs, Transmitted, Takes;
    var t := Next(framing, w, Transmit(bytes, clock));
    TransmittedQueues(w.b, bytes, clock);
    assert Begun(framing, t) == Begun(framing, w);
    assert Heard(framing, t) == Heard(framing, w);
  }

  lemma ReadKeeps(framing: Framing, w: World, now: nat)
    requires InStep(framing, w) && Can(w, Read(now))
    ensures InStep(framing, Next(framing, w, Read(now)))
  {
    hide Frame, D.Polled, D.Closed;
    var t := Next(framing, w, Read(now));
    assert Begun(framing, t) == Begun(framing, w);
    R.ReadKeeps(framing, Begun(framing, w), Heard(framing, w), now);
    assert Heard(framing, t) == R.Next(framing, Begun(framing, w), Heard(framing, w), R.Read(now));
  }

  /** Read on a quiet line, the decoder has heard every byte taken. */
  lemma QuietHeard(framing: Framing, w: World, now: nat)
    requires InStep(framing, w) && IsIdle(w.b) && Can(w, Read(now))
    ensures var t := Next(framing, w, Read(now)); t.out + t.far.done == R.HeardAs(framing, w.taken)
  {
    hide Frame, D.Closed, R.Spans, R.Hearing, R.HeardAs;
    var t := Next(framing, w, Read(now));
    var (burst, h) := (Begun(framing, w), Heard(framing, w));
    assert w.taken[..|w.taken|] == w.taken && |w.starts| == |w.taken|;
    if R.Open(framing, burst, h) {
      R.ReadKeeps(framing, burst, h, now);
      assert Heard(framing, t) == R.Next(framing, burst, h, R.Read(now));
    } else {
      hide R.Open;
      assert t.out + t.far.done == w.out + w.far.done;
    }
  }

  // ----- a wake -----

  /** Frames still to come change nothing of what is in step so far. */
  lemma Extends(framing: Framing, burst: R.Burst, more: R.Burst, h: R.World)
    requires |burst.starts| == |burst.bytes| && |more.starts| == |more.bytes| && more.periodNs == burst.periodNs
    requires burst.bytes <= more.bytes && burst.starts <= more.starts && R.InStep(framing, burst, h)
    ensures R.InStep(framing, more, h)
  {
    hide R.HeardAs, R.Hearing;
    if R.Shut(framing, burst, h) {
      var n := if h.n == 0 then 0 else h.k + 1;
      assert more.bytes[..n] == burst.bytes[..n];
    } else {
      assert more.bytes[..h.k] == burst.bytes[..h.k];
    }
  }

  /** A wake before the edge, or with nothing to send and nothing on the line, drives nothing. */
  lemma RestingKeeps(framing: Framing, w: World, now: nat, rx: Option<nat>)
    requires InStep(framing, w) && Can(w, Wake(now, rx)) && DueAt(w.b, now).None?
    ensures InStep(framing, Next(framing, w, Wake(now, rx)))
  {
    hide Serviced, R.InStep, R.Sent, Frame, R.Spans, D.FrameNs;
    var t := Next(framing, w, Wake(now, rx));
    ServicedClocks(framing, w.b, now, rx);
    LevelHeld(framing, w, now);
    assert Begun(framing, t) == Begun(framing, w);
    SameHeard(framing, w, t);
  }

  lemma SameHeard(framing: Framing, w: World, t: World)
    requires |w.starts| <= |w.taken| && |t.starts| <= |t.taken| && Begun(framing, t) == Begun(framing, w)
    requires |w.starts| == |t.starts| && w.b.bits == t.b.bits && w.far == t.far && w.out == t.out
    ensures R.Sent(framing, Begun(framing, w)) && R.InStep(framing, Begun(framing, w), Heard(framing, w)) ==>
              R.InStep(framing, Begun(framing, t), Heard(framing, t))
  {
    var (h, g) := (Heard(framing, w), Heard(framing, t));
    if R.Sent(framing, Begun(framing, w)) && R.InStep(framing, Begun(framing, w), h) {
      R.TakenKeeps(framing, Begun(framing, w), h, g);
    }
  }

  /** The wake after the last level parks the line at high, where it already is. */
  lemma ParkingKeeps(framing: Framing, w: World, now: nat, rx: Option<nat>)
    requires InStep(framing, w) && Can(w, Wake(now, rx)) && DueAt(w.b, now).Some?
    requires w.b.bits == [] && w.b.pending == []
    ensures InStep(framing, Next(framing, w, Wake(now, rx)))
  {
    hide Serviced, R.InStep, R.HeardAs, R.Tolerates;
    var t := Next(framing, w, Wake(now, rx));
    ServicedClocks(framing, w.b, now, rx);
    FrameEnds(framing, w.taken[|w.starts| - 1]);
    hide Frame, R.Spans, D.FrameBits;
    LevelHeld(framing, w, now);
    assert t.b.line == w.b.line == Some(High);
    assert Begun(framing, t) == Begun(framing, w);
    SameHeard(framing, w, t);
  }

  /** The next level of the frame in flight, at its own edge. */
  lemma BitKeeps(framing: Framing, w: World, now: nat, rx: Option<nat>)
    requires InStep(framing, w) && Can(w, Wake(now, rx)) && DueAt(w.b, now).Some? && w.b.bits != []
    ensures InStep(framing, Next(framing, w, Wake(now, rx)))
  {
    hide Serviced, R.InStep, R.HeardAs, R.Tolerates, Frame, R.Spans, D.OnLevel;
    var t := Next(framing, w, Wake(now, rx));
    ServicedClocks(framing, w.b, now, rx);
    var (burst, n) := (Begun(framing, w), Driven(framing, w));
    R.SpansTwo(n, 1, framing.bitPeriodNs);
    R.OneSpan(framing.bitPeriodNs);
    R.EdgeKeeps(framing, burst, Heard(framing, w));
    assert Begun(framing, t) == burst;
    assert Heard(framing, t) == R.Next(framing, burst, Heard(framing, w), R.Edge);
  }

  /** What the wake that begins a frame does to the bridge, and what the far end sees of it. */
  lemma StartDrives(framing: Framing, w: World, now: nat, rx: Option<nat>)
    requires w.b.enabled && Can(w, Wake(now, rx)) && DueAt(w.b, now).Some? && w.b.bits == [] && w.b.pending != []
    ensures var t := Next(framing, w, Wake(now, rx));
            && t.b.bits == Frame(framing, w.b.pending[0])[1..] && t.b.pending == w.b.pending[1..]
            && t.b.line == Some(Low) && t.b.nextEdgeNs == Some(now + framing.bitPeriodNs)
            && t.b.enabled && t.b.shutdown == w.b.shutdown && t.b.accepted == w.b.accepted
            && t.starts == w.starts + [now] && t.taken == w.taken && t.out == w.out && t.nowNs == now
            && t.far == D.OnLevel(framing, w.far, Low, now)
  {
    hide D.OnLevel, Frame, Serviced;
    var t := Next(framing, w, Wake(now, rx));
    ServicedClocks(framing, w.b, now, rx);
    assert Frame(framing, w.b.pending[0])[0] == Low;
    assert t.b.driven == w.b.driven + [Low];
  }

  /** The frame begun is one more of the burst, no sooner than the one before it is over. */
  lemma StartSent(framing: Framing, w: World, t: World)
    requires InStep(framing, w) && w.b.bits == [] && w.b.pending != []
    requires t.starts == w.starts + [t.nowNs] && t.taken == w.taken && w.nowNs <= t.nowNs
    requires w.b.nextEdgeNs.Some? ==> t.nowNs == w.b.nextEdgeNs.value
    ensures |w.starts| < |w.taken| && w.taken[|w.starts|] == w.b.pending[0]
    ensures Begun(framing, t).bytes == Begun(framing, w).bytes + [w.b.pending[0]]
    ensures R.Sent(framing, Begun(framing, t)) && R.InStep(framing, Begun(framing, t), Heard(framing, w))
  {
    hide R.InStep, R.HeardAs, R.Tolerates, Frame, R.Spans;
    R.FrameSpans(framing);
    assert w.taken[|w.starts|..][0] == w.taken[|w.starts|];
    assert Begun(framing, t).bytes == Begun(framing, w).bytes + [w.b.pending[0]];
    Extends(framing, Begun(framing, w), Begun(framing, t), Heard(framing, w));
  }

  /** The start bit of the next byte's frame. */
  lemma StartKeeps(framing: Framing, w: World, now: nat, rx: Option<nat>)
    requires InStep(framing, w) && Can(w, Wake(now, rx)) && DueAt(w.b, now).Some? && w.b.bits == [] && w.b.pending != []
    ensures InStep(framing, Next(framing, w, Wake(now, rx)))
  {
    hide R.InStep, R.HeardAs, R.Tolerates, D.OnLevel, R.Sent, Next, Frame, R.Spans;
    var t := Next(framing, w, Wake(now, rx));
    var (p, byte) := (framing.bitPeriodNs, w.b.pending[0]);
    StartDrives(framing, w, now, rx);
    StartSent(framing, w, t);
    StopBits(framing, w);
    FrameEnds(framing, byte);
    R.NoSpan(p);
    R.OneSpan(p);
    R.EdgeKeeps(framing, Begun(framing, t), Heard(framing, w));
    assert Heard(framing, t) == R.Next(framing, Begun(framing, t), Heard(framing, w), R.Edge);
    assert w.taken[|t.starts|..] == w.b.pending[1..];
  }

  lemma StopBits(framing: Framing, w: World)
    requires InStep(framing, w)
    ensures framing.stopBits > 0
  {
  }

  // ----- whole runs -----

  lemma StepKeeps(framing: Framing, w: World, step: Step)
    requires InStep(framing, w) && Can(w, step)
    ensures InStep(framing, Next(framing, w, step))
  {
    hide InStep, Next;
    match step {
      case Transmit(bytes, clock) => TransmitKeeps(framing, w, bytes, clock);
      case Read(now) => ReadKeeps(framing, w, now);
      case Wake(now, rx) =>
        if DueAt(w.b, now).None? {
          RestingKeeps(framing, w, now, rx);
        } else if w.b.bits != [] {
          BitKeeps(framing, w, now, rx);
        } else if w.b.pending != [] {
          StartKeeps(framing, w, now, rx);
        } else {
          ParkingKeeps(framing, w, now, rx);
        }
    }
  }

  lemma FreshInStep(framing: Framing, w: World)
    requires Fresh(w) && R.Tolerates(framing, framing.bitPeriodNs) && framing.stopBits > 0
    ensures InStep(framing, w)
  {
    hide R.Tolerates;
    assert Begun(framing, w) == R.Burst([], [], framing.bitPeriodNs);
    assert R.Shut(framing, Begun(framing, w), Heard(framing, w));
  }

  lemma OwnClock(framing: Framing)
    requires framing.bitPeriodNs > 0
    ensures R.Tolerates(framing, framing.bitPeriodNs)
  {
    R.SpansTwo(D.FrameBits(framing), 1, framing.bitPeriodNs);
    R.OneSpan(framing.bitPeriodNs);
    hide R.Spans;
  }

  lemma {:induction false} AlwaysInStep(framing: Framing, worlds: seq<World>, steps: seq<Step>, k: nat)
    requires Runs(framing, worlds, steps) && k < |worlds| && framing.bitPeriodNs > 0 && framing.stopBits > 0
    ensures InStep(framing, worlds[k])
  {
    hide InStep, Next;
    if k == 0 {
      OwnClock(framing);
      FreshInStep(framing, worlds[0]);
    } else {
      AlwaysInStep(framing, worlds, steps, k - 1);
      StepKeeps(framing, worlds[k - 1], steps[k - 1]);
    }
  }

  /**
   * The loop closed: over any run of transmits, wakes on a punctual engine and reads, a read on a line gone quiet has
   * heard every byte the transmits handed over that there was room for, in order, whole where frames carry eight bits.
   */
  lemma LinkHears(framing: Framing, worlds: seq<World>, steps: seq<Step>, k: nat)
    requires Runs(framing, worlds, steps) && k < |steps| && framing.bitPeriodNs > 0 && framing.stopBits > 0
    requires IsIdle(worlds[k].b) && steps[k].Read?
    ensures var w := worlds[k + 1]; w.out + w.far.done == R.HeardAs(framing, w.taken)
    ensures framing.dataBits >= 8 ==>
              var w := worlds[k + 1];
              w.out + w.far.done == seq(|w.taken|, i requires 0 <= i < |w.taken| => D.Heard(w.taken[i]))
  {
    hide InStep, Next;
    AlwaysInStep(framing, worlds, steps, k);
    QuietHeard(framing, worlds[k], steps[k].nowNs);
    TakenSame(framing, worlds[k], steps[k].nowNs);
    if framing.dataBits >= 8 {
      WholeHeard(framing, worlds[k + 1].taken);
    }
  }

  lemma WholeHeard(framing: Framing, bytes: seq<Byte>)
    requires framing.dataBits >= 8
    ensures R.HeardAs(framing, bytes) == seq(|bytes|, i requires 0 <= i < |bytes| => D.Heard(bytes[i]))
  {
    forall i: nat | i < |bytes| ensures R.HeardAs(framing, bytes)[i] == D.Heard(bytes[i]) {
      R.EightKept(framing, bytes[i]);
    }
  }

  lemma TakenSame(framing: Framing, w: World, now: nat)
    requires Can(w, Read(now))
    ensures Next(framing, w, Read(now)).taken == w.taken
  {
  }

  /**
   * And at every moment the pin is at the level the stream asks of it: the last level driven of the frame in flight,
   * high on a line that has sent all it has, and nothing but the frames of the bytes taken has ever been on it.
   */
  lemma PinShowsStream(framing: Framing, worlds: seq<World>, steps: seq<Step>, k: nat)
    requires Runs(framing, worlds, steps) && k < |worlds| && framing.bitPeriodNs > 0 && framing.stopBits > 0
    ensures var w := worlds[k];
            && |w.starts| <= |w.taken| && w.b.pending == w.taken[|w.starts|..]
            && (w.starts == [] ==> w.b.line.None? || w.b.line == Some(High))
            && (w.starts != [] ==>
                  var n := Driven(framing, w);
                  && 0 < n <= D.FrameBits(framing)
                  && w.b.line == Some(Frame(framing, w.taken[|w.starts| - 1])[n - 1]))
            && (IsIdle(w.b) && w.starts != [] ==> w.b.line == Some(High))
  {
    AlwaysInStep(framing, worlds, steps, k);
    hide R.InStep, R.Spans, Next;
    if worlds[k].starts != [] {
      StopBits(framing, worlds[k]);
      FrameEnds(framing, worlds[k].taken[|worlds[k].starts| - 1]);
    }
    hide Frame;
  }

  /** What the transmits hand over is all taken while there is room: the bytes heard are then the bytes sent. */
  lemma RoomTakesAll(framing: Framing, w: World, bytes: seq<Byte>, clock: nat)
    requires |w.b.pending| + |bytes| <= 4096
    ensures Next(framing, w, Transmit(bytes, clock)).taken == w.taken + bytes
  {
    assert bytes[..|bytes|] == bytes;
  }
}
