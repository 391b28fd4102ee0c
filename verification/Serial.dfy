/**
 * A serial channel clocked onto a line bit by bit, both directions asking the engine for wakes through one
 * de-duplicating slot. The engine is a set of pending instants, one entry an instant, earliest first.
 */
module Serial {
  import opened Options
  import opened Words
  import opened Uart
  import D = Decoder

  const TX_QUEUE_MAX: nat := 4096

  /**
   * The bridge. `wheel` is the engine's; `accepted`, `driven`, `anchorNs` and `dues` are history, since the
   * output was last enabled and, for the last two, since the burst on the line began.
   */
  datatype Bridge = Bridge(
    pending: seq<Byte>, bits: seq<Level>, nextEdgeNs: Option<nat>, armedNs: Option<nat>, enabled: bool, shutdown: bool,
    line: Option<Level>, wheel: set<nat>,
    accepted: seq<Byte>, driven: seq<Level>, anchorNs: nat, dues: seq<nat>)

  predicate IsIdle(b: Bridge) {
    b.nextEdgeNs.None? && b.bits == [] && b.pending == []
  }

  function Room(b: Bridge): nat {
    if |b.pending| <= TX_QUEUE_MAX then TX_QUEUE_MAX - |b.pending| else 0
  }

  /** What `transmit` asks of the flags, before it takes the lock. */
  predicate Admits(b: Bridge) {
    !b.shutdown && b.enabled
  }

  /** How many of `bytes` the queue has room for. */
  function Fits(b: Bridge, bytes: seq<Byte>): (n: nat)
    ensures n <= |bytes|
  {
    Min(|bytes|, Room(b))
  }

  // ----- one locked section, or one flag, each -----

  /** An admitted transmit's locked section, which looks at the queue and at no flag. */
  function Enqueued(b: Bridge, bytes: seq<Byte>): Bridge {
    var n := Fits(b, bytes);
    b.(pending := b.pending + bytes[..n], accepted := b.accepted + bytes[..n])
  }

  /** An idle line that took something needs a wake to get going. */
  predicate NeedsKick(b: Bridge, bytes: seq<Byte>) {
    IsIdle(b) && Fits(b, bytes) > 0
  }

  function Slotted(b: Bridge, at: nat): Bridge {
    b.(armedNs := Some(at))
  }

  function Scheduled(b: Bridge, at: nat): Bridge {
    b.(wheel := b.wheel + {at})
  }

  /** Ask to be woken at `at`; only an exact repeat of the last asking is dropped. */
  function Armed(b: Bridge, at: nat): Bridge {
    if b.armedNs == Some(at) then b else Scheduled(Slotted(b, at), at)
  }

  function Delivered(b: Bridge, now: nat): Bridge {
    if b.armedNs.Some? && b.armedNs.value <= now then b.(armedNs := None) else b
  }

  function Parked(b: Bridge): Bridge {
    b.(line := if b.enabled then Some(IDLE_LEVEL) else None)
  }

  function Flagged(b: Bridge, enabled: bool): Bridge {
    b.(enabled := enabled)
  }

  /** The queue and the frame in flight dropped, and the history of them with it. */
  function Cleared(b: Bridge): Bridge {
    b.(pending := [], bits := [], nextEdgeNs := None, accepted := [], driven := [], dues := [])
  }

  /** The instant the next bit is due at: its edge, or now for a line that starts a burst. */
  function DueAt(b: Bridge, now: nat): Option<nat> {
    match b.nextEdgeNs
    case Some(due) => if due > now then None else Some(due)
    case None => if b.pending != [] then Some(now) else None
  }

  /** A line that was quiet starts a burst at `now`. */
  function Started(b: Bridge, now: nat): Bridge {
    if b.nextEdgeNs.None? then b.(anchorNs := now, dues := []) else b
  }

  /** The next byte's frame in flight, once the last one is out. */
  function Framed(framing: Framing, b: Bridge): (f: Bridge)
    requires b.bits != [] || b.pending != []
    ensures f.bits != []
  {
    if b.bits == [] then b.(bits := Frame(framing, b.pending[0]), pending := b.pending[1..]) else b
  }

  /** One bit onto the line, the next due a bit period after it. */
  function BitDriven(framing: Framing, b: Bridge, due: nat): Bridge
    requires b.bits != []
  {
    b.(bits := b.bits[1..], nextEdgeNs := Some(due + framing.bitPeriodNs),
       line := Some(b.bits[0]), driven := b.driven + [b.bits[0]], dues := b.dues + [due])
  }

  /** The transmitter's locked section of a service, which looks at no flag: whatever bit is due is driven. */
  function Clocked(framing: Framing, b: Bridge, now: nat): Bridge {
    var due := DueAt(b, now);
    if due.None? then b
    else
      var started := Started(b, now);
      if started.bits == [] && started.pending == [] then Parked(started.(nextEdgeNs := None))
      else BitDriven(framing, Framed(framing, started), due.value)
  }

  /** The transmitter's next edge, as the service reports it: none for a released line. */
  function NextEdge(b: Bridge): Option<nat> {
    if b.enabled then b.nextEdgeNs else None
  }

  // ----- whole calls, run without another thread in between -----

  function Transmitted(b: Bridge, bytes: seq<Byte>, clock: nat): Bridge {
    if !Admits(b) then b
    else if NeedsKick(b, bytes) then Armed(Enqueued(b, bytes), clock)
    else Enqueued(b, bytes)
  }

  function Switched(b: Bridge, enabled: bool): Bridge {
    if b.enabled == enabled then b
    else Parked(if enabled then Flagged(b, true) else Cleared(Flagged(b, false)))
  }

  function TxServiced(framing: Framing, b: Bridge, now: nat): Bridge {
    if b.enabled then Clocked(framing, b, now) else b
  }

  function Sooner(a: Option<nat>, b: Option<nat>): Option<nat> {
    match (a, b)
    case (Some(x), Some(y)) => Some(Min(x, y))
    case (None, y) => y
    case (x, None) => x
  }

  function ArmedIf(b: Bridge, at: Option<nat>): Bridge {
    if at.Some? then Armed(b, at.value) else b
  }

  /** A whole service: the slot freed, the transmitter clocked, the sooner of the two directions armed. */
  function Serviced(framing: Framing, b: Bridge, now: nat, rxDeadline: Option<nat>): Bridge {
    var clocked := TxServiced(framing, Delivered(b, now), now);
    ArmedIf(clocked, Sooner(NextEdge(clocked), rxDeadline))
  }

  // ----- the receiver's half -----

  /** The decoder once everything it has heard by `now` is taken. */
  function Drained(framing: Framing, d: D.State, now: nat): D.State {
    D.Polled(framing, d, now).(done := [])
  }

  /** What is taken then. */
  function Taken(framing: Framing, d: D.State, now: nat): seq<D.Decoded> {
    D.Polled(framing, d, now).done
  }

  /** A sense whose voltage is no level is held at the level before it. */
  function Sensed(framing: Framing, d: D.State, level: Option<Level>, atNs: nat): D.State {
    if level.Some? then D.OnLevel(framing, d, level.value, atNs) else d
  }

  function Deadline(framing: Framing, d: D.State): Option<nat> {
    if d.frameStartNs.Some? then Some(d.frameStartNs.value + D.FrameNs(framing)) else None
  }

  // ----- the bridge itself -----

  class SerialLevelBridge {
    const framing: Framing
    const rx: D.UartDecoder
    var pending: seq<Byte>
    var bits: seq<Level>
    var nextEdgeNs: Option<nat>
    var armedNs: Option<nat>
    var outputEnabled: bool
    var shutdown: bool
    /** What the TX pin is driven to; none is high-Z. */
    var line: Option<Level>
    ghost var wheel: set<nat>
    ghost var accepted: seq<Byte>
    ghost var driven: seq<Level>
    ghost var anchorNs: nat
    ghost var dues: seq<nat>

    ghost function Now(): Bridge
      reads this
    {
      Bridge(pending, bits, nextEdgeNs, armedNs, outputEnabled, shutdown, line, wheel, accepted, driven, anchorNs, dues)
    }

    constructor (framing: Framing)
      ensures this.framing == framing && rx.framing == framing && fresh(rx)
      ensures rx.Now() == D.State(High, None, [], 0, [])
      ensures Now() == Bridge([], [], None, None, true, false, None, {}, [], [], 0, [])
    {
      this.framing := framing;
      rx := new D.UartDecoder(framing);
      pending, bits, nextEdgeNs, armedNs := [], [], None, None;
      outputEnabled, shutdown, line := true, false, None;
      wheel, accepted, driven, anchorNs, dues := {}, [], [], 0, [];
    }

    method Arm(atNs: nat)
      modifies this`armedNs, this`wheel
      ensures Now() == Armed(old(Now()), atNs)
    {
      if armedNs == Some(atNs) {
        return;
      }
      armedNs := Some(atNs);
      wheel := wheel + {atNs};
    }

    method Idle()
      modifies this`line
      ensures Now() == Parked(old(Now()))
    {
      line := if outputEnabled then Some(IDLE_LEVEL) else None;
    }

    /** The flag, and the level it held. */
    method SwapEnabled(enabled: bool) returns (was: bool)
      modifies this`outputEnabled
      ensures Now() == Flagged(old(Now()), enabled) && was == old(outputEnabled)
    {
      was := outputEnabled;
      outputEnabled := enabled;
    }

    method ClearQueue()
      modifies this
      ensures Now() == Cleared(old(Now()))
    {
      pending, bits, nextEdgeNs := [], [], None;
      accepted, driven, dues := [], [], [];
    }

    /** Power the driver: losing it loses the queue and the frame in flight, gaining it parks the line. */
    method SetOutputEnabled(enabled: bool)
      modifies this
      ensures Now() == Switched(old(Now()), enabled)
    {
      var was := SwapEnabled(enabled);
      if was == enabled {
        return;
      }
      if !enabled {
        ClearQueue();
      }
      Idle();
    }

    method TxRoom() returns (room: nat)
      ensures room == Room(Now())
    {
      room := if |pending| <= TX_QUEUE_MAX then TX_QUEUE_MAX - |pending| else 0;
    }

    method TxIdle() returns (idle: bool)
      ensures idle <==> IsIdle(Now())
    {
      idle := nextEdgeNs.None? && bits == [] && pending == [];
    }

    /** Queue what fits; the rest is shed, and an idle line that took something wants a kick. */
    method Enqueue(bytes: seq<Byte>) returns (shed: nat, kick: bool)
      modifies this
      ensures Now() == Enqueued(old(Now()), bytes)
      ensures shed == |bytes| - Fits(old(Now()), bytes) && (kick <==> NeedsKick(old(Now()), bytes))
    {
      var idle := TxIdle();
      var room := TxRoom();
      var taken := if |bytes| <= room then |bytes| else room;
      pending := pending + bytes[..taken];
      accepted := accepted + bytes[..taken];
      shed, kick := |bytes| - taken, idle && taken > 0;
    }

    /** Take bytes for the line; the result is how many it could not. */
    method Transmit(bytes: seq<Byte>, clock: nat) returns (shed: nat)
      modifies this
      ensures Now() == Transmitted(old(Now()), bytes, clock)
      ensures shed == |bytes| - if Admits(old(Now())) then Fits(old(Now()), bytes) else 0
    {
      if shutdown || !outputEnabled {
        return |bytes|;
      }
      var kick;
      shed, kick := Enqueue(bytes);
      if kick {
        Arm(clock);
      }
    }

    method Drain(nowNs: nat) returns (frames: seq<D.Decoded>)
      requires rx.framing == framing
      modifies rx
      ensures rx.Now() == Drained(framing, old(rx.Now()), nowNs) && frames == Taken(framing, old(rx.Now()), nowNs)
    {
      hide D.Closed;
      frames := [];
      var frame := rx.Poll(nowNs);
      while frame.Some?
        invariant Taken(framing, old(rx.Now()), nowNs) == frames + (if frame.Some? then [frame.value] else []) + rx.done
        invariant rx.Now() == D.Polled(framing, old(rx.Now()), nowNs).(done := rx.done)
        invariant frame.None? ==> rx.done == []
        decreases |rx.done| + if frame.Some? then 1 else 0
      {
        frames := frames + [frame.value];
        PolledOnce(framing, old(rx.Now()), rx.Now(), nowNs);
        frame := rx.Poll(nowNs);
      }
    }

    /** A sense at the RX pin: every byte heard by then, and the deadline of the frame it left open armed. */
    method ReceiveSense(level: Option<Level>, atNs: nat) returns (frames: seq<D.Decoded>)
      requires rx.framing == framing
      modifies this`armedNs, this`wheel, rx
      ensures var heard := Sensed(framing, old(rx.Now()), level, atNs);
              && rx.Now() == Drained(framing, heard, atNs) && frames == Taken(framing, heard, atNs)
              && Now() == ArmedIf(old(Now()), Deadline(framing, Drained(framing, heard, atNs)))
    {
      if level.Some? {
        rx.Observe(level.value, atNs);
      }
      frames := Drain(atNs);
      var deadline := rx.FrameDeadlineNs();
      if deadline.Some? {
        Arm(deadline.value);
      }
    }

    /** The transmitter's share of a wake, and the edge it waits for next. */
    method ServiceTx(nowNs: nat) returns (next: Option<nat>)
      modifies this
      ensures Now() == TxServiced(framing, old(Now()), nowNs) && next == NextEdge(Now())
    {
      if !outputEnabled {
        return None;
      }
      next := Clock(nowNs);
    }

    /** Its locked section. */
    method Clock(nowNs: nat) returns (next: Option<nat>)
      modifies this
      ensures Now() == Clocked(framing, old(Now()), nowNs)
      ensures next == nextEdgeNs && outputEnabled == old(outputEnabled)
    {
      hide Frame, BitDriven, Framed;
      var due := nowNs;
      if nextEdgeNs.Some? {
        if nextEdgeNs.value > nowNs {
          return nextEdgeNs;
        }
        due := nextEdgeNs.value;
      } else if pending == [] {
        return None;
      } else {
        anchorNs, dues := nowNs, [];
      }
      assert Now() == Started(old(Now()), nowNs);
      if bits == [] && pending == [] {
        nextEdgeNs := None;
        Idle();
        return None;
      }
      next := DriveBit(due);
    }

    /** The next bit of the frame in flight, or of the next byte's. */
    method DriveBit(due: nat) returns (next: Option<nat>)
      requires bits != [] || pending != []
      modifies this
      ensures Now() == BitDriven(framing, Framed(framing, old(Now())), due)
      ensures next == nextEdgeNs && outputEnabled == old(outputEnabled)
    {
      hide Frame;
      if bits == [] {
        var byte := pending[0];
        pending := pending[1..];
        var edges := Encode(framing, byte);
        bits := Levels(edges);
      }
      assert Now() == Framed(framing, old(Now()));
      var level := bits[0];
      bits := bits[1..];
      next := Some(due + framing.bitPeriodNs);
      nextEdgeNs := next;
      line := Some(level);
      driven := driven + [level];
      dues := dues + [due];
    }

    /** Service both directions, on the wake at `nowNs`. */
    method Service(nowNs: nat) returns (frames: seq<D.Decoded>)
      requires rx.framing == framing
      modifies this, rx
      ensures rx.Now() == Drained(framing, old(rx.Now()), nowNs) && frames == Taken(framing, old(rx.Now()), nowNs)
      ensures Now() == Serviced(framing, old(Now()), nowNs, Deadline(framing, Drained(framing, old(rx.Now()), nowNs)))
    {
      if armedNs.Some? && armedNs.value <= nowNs {
        armedNs := None;
      }
      var txNext := ServiceTx(nowNs);
      frames := Drain(nowNs);
      var rxNext := rx.FrameDeadlineNs();
      var next := Sooner(txNext, rxNext);
      if next.Some? {
        Arm(next.value);
      }
    }
  }

  /** A frame closed by the clock is closed once. */
  lemma PolledOnce(framing: Framing, before: D.State, d: D.State, now: nat)
    requires d == D.Polled(framing, before, now).(done := d.done)
    ensures D.Polled(framing, d, now) == d
  {
  }
}
