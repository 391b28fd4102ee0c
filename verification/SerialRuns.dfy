/**
 * The bridge under every interleaving of its callers: each flag it reads or swaps, each locked section and
 * each schedule on its way to the engine is one step, and any other thread's step may come in between.
 */
module SerialRuns {
  import opened Options
  import opened Uart
  import opened Words
  import opened Serial

  // ----- what is on the wire -----

  /**
   * Levels driven, the frame in flight and the frames queued: the accepted bytes' frames, in order, since the queue was
   * last cleared.
   */
  ghost predicate Streams(framing: Framing, b: Bridge) {
    && b.driven + b.bits + Frames(framing, b.pending) == Frames(framing, b.accepted)
    && |b.pending| <= TX_QUEUE_MAX
    && (b.nextEdgeNs.None? ==> b.bits == [])
  }

  /** The burst on the line is on its grid: the k-th bit due at anchor + k periods, the next one after them. */
  ghost predicate OnGrid(framing: Framing, b: Bridge) {
    b.nextEdgeNs.Some? ==>
      && b.nextEdgeNs.value == b.anchorNs + |b.dues| * framing.bitPeriodNs
      && forall k :: 0 <= k < |b.dues| ==> b.dues[k] == b.anchorNs + k * framing.bitPeriodNs
  }

  lemma EnqueuedKeeps(framing: Framing, b: Bridge, bytes: seq<Byte>)
    requires Streams(framing, b) && OnGrid(framing, b)
    ensures Streams(framing, Enqueued(b, bytes)) && OnGrid(framing, Enqueued(b, bytes))
  {
    var taken := bytes[..Fits(b, bytes)];
    FramesConcat(framing, b.pending, taken);
    FramesConcat(framing, b.accepted, taken);
    assert b.driven + b.bits + (Frames(framing, b.pending) + Frames(framing, taken)) ==
           (b.driven + b.bits + Frames(framing, b.pending)) + Frames(framing, taken);
  }

  lemma GridStep(framing: Framing, anchor: nat, dues: seq<nat>, due: nat)
    requires due == anchor + |dues| * framing.bitPeriodNs
    ensures due + framing.bitPeriodNs == anchor + |dues + [due]| * framing.bitPeriodNs
  {
    assert (|dues| + 1) * framing.bitPeriodNs == |dues| * framing.bitPeriodNs + framing.bitPeriodNs;
  }

  /** Moving the head of the frame in flight onto the wire changes nothing of the whole stream. */
  lemma HeadMoves(driven: seq<Level>, bits: seq<Level>, rest: seq<Level>)
    requires bits != []
    ensures (driven + [bits[0]]) + bits[1..] + rest == driven + bits + rest
  {
    assert [bits[0]] + bits[1..] == bits;
    assert (driven + [bits[0]]) + bits[1..] == driven + ([bits[0]] + bits[1..]);
  }

  lemma ClockedStreams(framing: Framing, b: Bridge, now: nat)
    requires Streams(framing, b)
    ensures Streams(framing, Clocked(framing, b, now))
  {
    if DueAt(b, now).Some? && (b.bits != [] || b.pending != []) {
      hide Frame, OnGrid, Parked;
      if b.bits == [] {
        var frame, rest := Frame(framing, b.pending[0]), Frames(framing, b.pending[1..]);
        HeadMoves(b.driven, frame, rest);
        assert b.driven + b.bits + (frame + rest) == b.driven + frame + rest;
      } else {
        HeadMoves(b.driven, b.bits, Frames(framing, b.pending));
      }
    }
  }

  lemma ClockedOnGrid(framing: Framing, b: Bridge, now: nat)
    requires OnGrid(framing, b)
    ensures OnGrid(framing, Clocked(framing, b, now))
  {
    var due := DueAt(b, now);
    if due.Some? {
      if b.nextEdgeNs.None? {
        GridStep(framing, now, [], now);
      } else {
        GridStep(framing, b.anchorNs, b.dues, due.value);
      }
    }
  }

  /**
   * What the clocking leaves on the pin: the level it drove, the last of the stream; high on a line it parks, which a
   * start bit departs from, or nothing where the output is off; and what was there where nothing was due.
   */
  lemma ClockedShows(framing: Framing, b: Bridge, now: nat)
    ensures var t := Clocked(framing, b, now);
            && (t.driven != b.driven ==> |t.driven| == |b.driven| + 1 && t.line == Some(t.driven[|b.driven|]))
            && (t.driven == b.driven && DueAt(b, now).Some? ==>
                  IsIdle(t) && t.line == if b.enabled then Some(High) else None)
            && (DueAt(b, now).None? ==> t == b)
  {
    hide Frame;
  }

  /** A queue with room for them takes every byte: nothing is shed of what `tx_room` allows. */
  lemma RoomIsTaken(b: Bridge, bytes: seq<Byte>)
    requires |bytes| <= Room(b)
    ensures Fits(b, bytes) == |bytes| && Enqueued(b, bytes).pending == b.pending + bytes
  {
    assert bytes[..|bytes|] == bytes;
  }

  // ----- the interleaved machine -----

  /** The engine's thread: between wakes, with a wake popped, its slot freed, the output seen on, or its bit clocked. */
  datatype EnginePc = Waiting | Popped(now: nat) | Freed(now: nat) | Looked(now: nat) | Sent(txNext: Option<nat>)

  /**
   * The bridge and where its callers stand: transmits that found the bridge open, and of those the ones that
   * also found the output on; transmits that queued into an idle line and have yet to arm it; instants in the
   * slot whose schedule has yet to reach the engine; switch-offs that have yet to clear the queue.
   */
  datatype World = World(b: Bridge, pc: EnginePc, asked: multiset<seq<Byte>>, admitted: multiset<seq<Byte>>,
                         kicks: nat, scheduling: multiset<nat>, clears: nat)

  datatype Step =
    | Ask(bytes: seq<Byte>)
    | Admit(bytes: seq<Byte>)
    | Refuse(bytes: seq<Byte>)
    | Enqueue(bytes: seq<Byte>)
    | KickArms(clock: nat)
    | ScheduleLands(at: nat)
    | Pop(popNow: nat, earliest: nat)
    | Free
    | Look
    | Clock
    | Finish(rxDeadline: Option<nat>)
    | SenseArms(deadline: nat)
    | Swap(on: bool)
    | Clear
    | Park
    | ShutDown

  /** The slot's section of an arm; the schedule itself lands later. */
  function ArmBegins(w: World, at: nat): World {
    if w.b.armedNs == Some(at) then w else w.(b := Slotted(w.b, at), scheduling := w.scheduling + multiset{at})
  }

  /** The engine pops its earliest entry, at or after its deadline; the rest are each step's own conditions. */
  ghost predicate Can(w: World, step: Step) {
    match step
    case Ask(_) => !w.b.shutdown
    case Admit(bytes) => bytes in w.asked && w.b.enabled
    case Refuse(bytes) => bytes in w.asked && !w.b.enabled
    case Enqueue(bytes) => bytes in w.admitted
    case KickArms(_) => w.kicks > 0
    case ScheduleLands(at) => at in w.scheduling
    case Pop(now, earliest) =>
      w.pc.Waiting? && earliest in w.b.wheel && earliest <= now && forall t :: t in w.b.wheel ==> earliest <= t
    case Free => w.pc.Popped?
    case Look => w.pc.Freed?
    case Clock => w.pc.Looked?
    case Finish(_) => w.pc.Sent?
    case SenseArms(_) => w.pc.Waiting?
    case Swap(_) => true
    case Clear => w.clears > 0
    case Park => true
    case ShutDown => true
  }

  ghost function Next(framing: Framing, w: World, step: Step): World
    requires Can(w, step)
  {
    match step
    case Ask(bytes) => w.(asked := w.asked + multiset{bytes})
    case Admit(bytes) => w.(asked := w.asked - multiset{bytes}, admitted := w.admitted + multiset{bytes})
    case Refuse(bytes) => w.(asked := w.asked - multiset{bytes})
    case Enqueue(bytes) =>
      w.(b := Enqueued(w.b, bytes), admitted := w.admitted - multiset{bytes},
         kicks := w.kicks + if NeedsKick(w.b, bytes) then 1 else 0)
    case KickArms(clock) => ArmBegins(w.(kicks := w.kicks - 1), clock)
    case ScheduleLands(at) => w.(b := Scheduled(w.b, at), scheduling := w.scheduling - multiset{at})
    case Pop(now, earliest) => w.(b := w.b.(wheel := w.b.wheel - {earliest}), pc := Popped(now))
    case Free => w.(b := Delivered(w.b, w.pc.now), pc := Freed(w.pc.now))
    case Look => w.(pc := if w.b.enabled then Looked(w.pc.now) else Sent(None))
    case Clock =>
      var clocked := Clocked(framing, w.b, w.pc.now);
      w.(b := clocked, pc := Sent(clocked.nextEdgeNs))
    case Finish(rx) =>
      var at := Sooner(w.pc.txNext, rx);
      var done := w.(pc := Waiting);
      if at.Some? then ArmBegins(done, at.value) else done
    case SenseArms(deadline) => ArmBegins(w, deadline)
    case Swap(on) => w.(b := Flagged(w.b, on), clears := w.clears + if w.b.enabled && !on then 1 else 0)
    case Clear => w.(b := Cleared(w.b), clears := w.clears - 1)
    case Park => w.(b := Parked(w.b))
    case ShutDown => w.(b := w.b.(shutdown := true))
  }

  /** `t` is pending on the engine, or on its way there. */
  ghost predicate OnItsWay(w: World, t: nat) {
    t in w.b.wheel || t in w.scheduling
  }

  /** The slot names an instant the engine will deliver, or is delivering. */
  ghost predicate SlotHonest(w: World) {
    w.b.armedNs.Some? ==> OnItsWay(w, w.b.armedNs.value) || (w.pc.Popped? && w.b.armedNs.value <= w.pc.now)
  }

  /** What holds whatever the callers do. */
  ghost predicate Kept(framing: Framing, w: World) {
    Streams(framing, w.b) && OnGrid(framing, w.b) && SlotHonest(w)
  }

  /** A service that has yet to clock the transmitter. */
  ghost predicate AboutToClock(w: World) {
    w.pc.Popped? || w.pc.Freed? || w.pc.Looked?
  }

  /** Once a switch-off has cleared the queue, a line that is off has nothing to send. */
  ghost predicate OffIsEmpty(w: World) {
    !w.b.enabled && w.clears == 0 ==> IsIdle(w.b)
  }

  /**
   * Whatever the transmitter waits for, some wake at or before it is coming, unless a clear is about to drop it all.
   */
  ghost predicate NeverStarved(w: World) {
    w.clears == 0 ==>
      && (w.b.enabled && w.b.nextEdgeNs.Some? ==>
            AboutToClock(w) || w.pc == Sent(w.b.nextEdgeNs) ||
            exists t: nat :: OnItsWay(w, t) && t <= w.b.nextEdgeNs.value)
      && (w.b.enabled && w.b.nextEdgeNs.None? && w.b.pending != [] ==>
            AboutToClock(w) || w.kicks > 0 || exists t: nat :: OnItsWay(w, t))
      && (w.pc.Sent? && w.b.nextEdgeNs.Some? ==> w.pc.txNext == w.b.nextEdgeNs)
  }

  ghost predicate Attended(w: World) {
    OffIsEmpty(w) && NeverStarved(w)
  }

  /** An admitted transmit queues at least one byte after a switch-off has cleared the queue, the output still off. */
  ghost predicate Stray(w: World, step: Step) {
    step.Enqueue? && !w.b.enabled && w.clears == 0 && Fits(w.b, step.bytes) > 0
  }

  // ----- what every step keeps -----

  /** After any arm something is on its way at or before the instant asked for. */
  lemma ArmBeginsCovers(w: World, at: nat)
    requires SlotHonest(w)
    ensures SlotHonest(ArmBegins(w, at))
    ensures OnItsWay(ArmBegins(w, at), at) || (w.pc.Popped? && at <= w.pc.now)
    ensures forall t: nat :: OnItsWay(w, t) ==> OnItsWay(ArmBegins(w, at), t)
    ensures var n := ArmBegins(w, at);
            n.b == w.b.(armedNs := Some(at), wheel := n.b.wheel) && n.b.wheel == w.b.wheel && n.pc == w.pc
            && n.kicks == w.kicks && n.clears == w.clears
  {
  }

  lemma QueueKeeps(framing: Framing, w: World, step: Step)
    requires Kept(framing, w) && Can(w, step) && (step.Enqueue? || step.Clear? || step.Clock?)
    ensures Kept(framing, Next(framing, w, step))
  {
    var n := Next(framing, w, step);
    match step {
      case Enqueue(bytes) => EnqueuedKeeps(framing, w.b, bytes);
      case Clear => ClearedStreams(framing, w.b);
      case Clock =>
        ClockedFrame(framing, w.b, w.pc.now);
        ClockedStreams(framing, w.b, w.pc.now);
        ClockedOnGrid(framing, w.b, w.pc.now);
    }
    hide Streams, OnGrid, Clocked;
  }

  lemma ArmKeeps(framing: Framing, w: World, step: Step)
    requires Kept(framing, w) && Can(w, step) && (step.KickArms? || step.Finish? || step.SenseArms?)
    ensures Kept(framing, Next(framing, w, step))
  {
    hide Frames;
    match step {
      case KickArms(clock) => ArmBeginsCovers(w.(kicks := w.kicks - 1), clock);
      case Finish(rx) =>
        var at := Sooner(w.pc.txNext, rx);
        if at.Some? {
          ArmBeginsCovers(w.(pc := Waiting), at.value);
        }
      case SenseArms(deadline) => ArmBeginsCovers(w, deadline);
    }
  }

  lemma StepKeeps(framing: Framing, w: World, step: Step)
    requires Kept(framing, w) && Can(w, step)
    ensures Kept(framing, Next(framing, w, step))
  {
    if step.Enqueue? || step.Clear? || step.Clock? {
      QueueKeeps(framing, w, step);
    } else if step.KickArms? || step.Finish? || step.SenseArms? {
      ArmKeeps(framing, w, step);
    } else {
      OtherKeeps(framing, w, step);
    }
    hide Kept, Next, Can;
  }

  /** The other steps leave queue, frame and grid alone; of the slot and the wheel they move one instant at most. */
  lemma OtherKeeps(framing: Framing, w: World, step: Step)
    requires Kept(framing, w) && Can(w, step)
    requires !step.Enqueue? && !step.Clear? && !step.Clock? && !step.KickArms? && !step.Finish? && !step.SenseArms?
    ensures Kept(framing, Next(framing, w, step))
  {
    hide Frame, Frames, Parked, Clocked, Enqueued, Cleared, ArmBegins;
    ParkedFrame(w.b);
    var n := Next(framing, w, step);
    assert n.b == w.b.(armedNs := n.b.armedNs, wheel := n.b.wheel, enabled := n.b.enabled, line := n.b.line,
                       shutdown := n.b.shutdown);
    assert Streams(framing, n.b) && OnGrid(framing, n.b);
    hide Streams, OnGrid;
  }

  lemma ClearedStreams(framing: Framing, b: Bridge)
    ensures Streams(framing, Cleared(b)) && OnGrid(framing, Cleared(b))
  {
  }

  lemma ParkedFrame(b: Bridge)
    ensures Parked(b) == b.(line := Parked(b).line)
  {
  }

  /** Clocking touches neither the slot, the wheel nor the flag, and leaves an edge wherever there is work. */
  lemma ClockedFrame(framing: Framing, b: Bridge, now: nat)
    ensures var c := Clocked(framing, b, now);
            && c.wheel == b.wheel && c.armedNs == b.armedNs && c.enabled == b.enabled
            && (c.nextEdgeNs.None? ==> c.pending == [])
            && (b.pending != [] ==> !IsIdle(c))
            && (IsIdle(b) ==> c == b)
  {
    hide Frame;
  }

  // ----- which steps keep the transmitter attended -----

  lemma EnqueueAttends(framing: Framing, w: World, bytes: seq<Byte>)
    requires Kept(framing, w) && Attended(w) && Can(w, Enqueue(bytes)) && !Stray(w, Enqueue(bytes))
    ensures Attended(Next(framing, w, Enqueue(bytes)))
  {
    var n := Next(framing, w, Enqueue(bytes));
    assert forall t: nat :: OnItsWay(w, t) <==> OnItsWay(n, t);
    hide OnGrid, Frames, SlotHonest;
  }

  lemma KickAttends(framing: Framing, w: World, clock: nat)
    requires Kept(framing, w) && Attended(w) && w.kicks > 0
    ensures Attended(Next(framing, w, KickArms(clock)))
  {
    var less := w.(kicks := w.kicks - 1);
    assert forall t: nat :: OnItsWay(w, t) <==> OnItsWay(less, t);
    ArmBeginsCovers(less, clock);
    hide ArmBegins, Streams, OnGrid;
  }

  lemma LandAttends(framing: Framing, w: World, at: nat)
    requires Attended(w) && at in w.scheduling
    ensures Attended(Next(framing, w, ScheduleLands(at)))
  {
    var n := Next(framing, w, ScheduleLands(at));
    assert forall t: nat :: OnItsWay(w, t) ==> OnItsWay(n, t);
    hide OnItsWay;
  }

  lemma ServiceAttends(framing: Framing, w: World, step: Step)
    requires Kept(framing, w) && Attended(w) && Can(w, step) && (step.Pop? || step.Free? || step.Look? || step.Clock?)
    ensures Attended(Next(framing, w, step))
  {
    var n := Next(framing, w, step);
    if step.Clock? {
      ClockedFrame(framing, w.b, w.pc.now);
    }
    hide Clocked, Streams, OnGrid, SlotHonest;
  }

  lemma ArmAttends(framing: Framing, w: World, step: Step)
    requires Kept(framing, w) && Attended(w) && Can(w, step) && (step.Finish? || step.SenseArms?)
    ensures Attended(Next(framing, w, step))
  {
    var waiting := w.(pc := Waiting);
    assert forall t: nat :: OnItsWay(w, t) <==> OnItsWay(waiting, t);
    var at := if step.Finish? then Sooner(w.pc.txNext, step.rxDeadline) else Some(step.deadline);
    if at.Some? {
      ArmBeginsCovers(waiting, at.value);
    }
    hide ArmBegins, Streams, OnGrid;
  }

  /** The steps that touch neither wheel, slot nor queue, and the clear, which leaves nothing to attend to. */
  lemma FlagAttends(framing: Framing, w: World, step: Step)
    requires Kept(framing, w) && Attended(w) && Can(w, step)
    requires step.Ask? || step.Admit? || step.Refuse? || step.Swap? || step.Clear? || step.Park? || step.ShutDown?
    ensures Attended(Next(framing, w, step))
  {
    var n := Next(framing, w, step);
    ParkedFrame(w.b);
    assert forall t: nat :: OnItsWay(w, t) <==> OnItsWay(n, t);
    hide OnItsWay, OnGrid, Streams, SlotHonest, Parked;
  }

  /** No step but a stray one leaves work unattended, and a stray one always does. */
  lemma StepAttends(framing: Framing, w: World, step: Step)
    requires Kept(framing, w) && Attended(w) && Can(w, step)
    ensures Attended(Next(framing, w, step)) <==> !Stray(w, step)
  {
    if !Stray(w, step) {
      match step {
        case Enqueue(bytes) => EnqueueAttends(framing, w, bytes);
        case KickArms(clock) => KickAttends(framing, w, clock);
        case ScheduleLands(at) => LandAttends(framing, w, at);
        case Pop(_, _) => ServiceAttends(framing, w, step);
        case Free => ServiceAttends(framing, w, step);
        case Look => ServiceAttends(framing, w, step);
        case Clock => ServiceAttends(framing, w, step);
        case Finish(_) => ArmAttends(framing, w, step);
        case SenseArms(_) => ArmAttends(framing, w, step);
        case _ => FlagAttends(framing, w, step);
      }
    }
  }

  /** Nothing but the clocking, and whoever parks the line, moves the pin; a parked line is high, or off released. */
  lemma PinMoves(framing: Framing, w: World, step: Step)
    requires Can(w, step)
    ensures Next(framing, w, step).b.line != w.b.line ==> step.Clock? || step.Park?
    ensures step.Park? ==> Next(framing, w, step).b.line == if w.b.enabled then Some(High) else None
  {
    hide Clocked;
  }

  // ----- sending it all -----

  /** What a transmit is taken for: as much as 4096 queued bytes leave room for, nothing with the output off or shut. */
  lemma TransmitTakes(b: Bridge, bytes: seq<Byte>, clock: nat)
    ensures var room := if |b.pending| <= 4096 then 4096 - |b.pending| else 0;
            var taken := if b.shutdown || !b.enabled then [] else bytes[..Min(|bytes|, room)];
            var t := Transmitted(b, bytes, clock);
            && t.pending == b.pending + taken && t.accepted == b.accepted + taken
            && t.bits == b.bits && t.line == b.line && t.nextEdgeNs == b.nextEdgeNs
  {
  }

  /**
   * What a switching does to the pin and the queue: nothing when the output is so already; off, everything is dropped
   * and the pin released; on, the pin is high and the queue as it was. No wake asked for is taken back.
   */
  lemma SwitchDoes(b: Bridge, on: bool)
    ensures var t := Switched(b, on);
            && t.enabled == on && t.shutdown == b.shutdown && t.armedNs == b.armedNs && t.wheel == b.wheel
            && (on == b.enabled ==> t == b)
            && (on && !b.enabled ==>
                  t.line == Some(High) && t.pending == b.pending && t.bits == b.bits && t.nextEdgeNs == b.nextEdgeNs)
            && (!on && b.enabled ==> t.line == None && IsIdle(t))
  {
  }

  /** What is still to go out. */
  function ToSend(framing: Framing, b: Bridge): seq<Level> {
    b.bits + Frames(framing, b.pending)
  }

  /** `n` clockings, each at its own edge; the first, on a line that is quiet, at `now`. */
  function Punctually(framing: Framing, b: Bridge, now: nat, n: nat): Bridge {
    if n == 0 then b
    else
      var t := Punctually(framing, b, now, n - 1);
      Clocked(framing, t, t.nextEdgeNs.GetOr(now))
  }

  /** A clocking at its edge, with anything to send, drives the next level of it and is due again a bit later. */
  lemma EdgeDrives(framing: Framing, b: Bridge, at: nat)
    requires ToSend(framing, b) != [] && (if b.nextEdgeNs.Some? then b.nextEdgeNs.value == at else b.bits == [])
    ensures var t := Clocked(framing, b, at);
            && t.driven == b.driven + [ToSend(framing, b)[0]] && t.line == Some(ToSend(framing, b)[0])
            && ToSend(framing, t) == ToSend(framing, b)[1..]
            && t.nextEdgeNs == Some(at + framing.bitPeriodNs)
  {
    hide Frame;
    if b.bits == [] {
      assert b.pending != [];
      assert ToSend(framing, b) == Frame(framing, b.pending[0]) + Frames(framing, b.pending[1..]);
    }
  }

  /** One level more of those to send. */
  lemma OneMoreSent(framing: Framing, t: Bridge, at: nat, before: seq<Level>, levels: seq<Level>, n: nat)
    requires n < |levels| && t.driven == before + levels[..n] && ToSend(framing, t) == levels[n..]
    requires if t.nextEdgeNs.Some? then t.nextEdgeNs.value == at else t.bits == []
    ensures var u := Clocked(framing, t, at);
            && u.driven == before + levels[..n + 1] && ToSend(framing, u) == levels[n + 1..]
            && u.nextEdgeNs == Some(at + framing.bitPeriodNs) && u.enabled == t.enabled
  {
    hide ToSend, Clocked;
    EdgeDrives(framing, t, at);
    StaysOn(framing, t, at);
    assert levels[..n + 1] == levels[..n] + [levels[n]];
    assert levels[n..][1..] == levels[n + 1..];
  }

  /** The sending so far: `n` levels out, the `n`-th a bit period after the one before it. */
  ghost predicate SentSoFar(framing: Framing, b: Bridge, now: nat, n: nat, t: Bridge)
    requires n <= |ToSend(framing, b)|
  {
    && t.driven == b.driven + ToSend(framing, b)[..n] && ToSend(framing, t) == ToSend(framing, b)[n..]
    && (if n > 0 then t.nextEdgeNs == Some(b.nextEdgeNs.GetOr(now) + n * framing.bitPeriodNs) else t == b)
    && t.enabled == b.enabled
  }

  lemma SentStep(framing: Framing, b: Bridge, now: nat, n: nat, t: Bridge)
    requires n < |ToSend(framing, b)| && SentSoFar(framing, b, now, n, t) && (b.nextEdgeNs.Some? || b.bits == [])
    ensures SentSoFar(framing, b, now, n + 1, Clocked(framing, t, t.nextEdgeNs.GetOr(now)))
  {
    hide ToSend, Clocked;
    OneMoreSent(framing, t, t.nextEdgeNs.GetOr(now), b.driven, ToSend(framing, b), n);
    PeriodMore(n + 1, framing.bitPeriodNs);
  }

  /** On a punctual engine the first `n` levels to send are out after `n` wakes, a bit apart. */
  lemma {:induction false} PunctualSends(framing: Framing, b: Bridge, now: nat, n: nat)
    requires n <= |ToSend(framing, b)| && (b.nextEdgeNs.Some? || b.bits == [])
    ensures SentSoFar(framing, b, now, n, Punctually(framing, b, now, n))
  {
    hide ToSend, Clocked;
    if n > 0 {
      PunctualSends(framing, b, now, n - 1);
      hide SentSoFar;
      SentStep(framing, b, now, n - 1, Punctually(framing, b, now, n - 1));
    }
  }

  lemma PeriodMore(n: nat, periodNs: nat)
    requires n > 0
    ensures (n - 1) * periodNs + periodNs == n * periodNs
  {
  }

  lemma StaysOn(framing: Framing, b: Bridge, at: nat)
    ensures Clocked(framing, b, at).enabled == b.enabled
  {
    hide Frame;
  }

  /**
   * Everything queued goes out: after as many punctual wakes as there are levels, and one more, the stream has grown by
   * exactly those levels, and the line is quiet and high.
   */
  lemma PunctualDrains(framing: Framing, b: Bridge, now: nat)
    requires ToSend(framing, b) != [] && (b.nextEdgeNs.Some? || b.bits == [])
    ensures var t := Punctually(framing, b, now, |ToSend(framing, b)| + 1);
            && t.driven == b.driven + ToSend(framing, b) && IsIdle(t)
            && t.line == if b.enabled then Some(High) else None
  {
    var levels := ToSend(framing, b);
    PunctualSends(framing, b, now, |levels|);
    var t := Punctually(framing, b, now, |levels|);
    assert levels[..|levels|] == levels;
    NothingToSend(framing, t);
    hide ToSend;
  }

  lemma NothingToSend(framing: Framing, b: Bridge)
    requires ToSend(framing, b) == []
    ensures b.bits == [] && b.pending == []
  {
    hide Frame;
  }

  // ----- the receiver's deadline -----

  /** The step asks for a wake at the receiver's deadline `at`, among whatever else it asks for. */
  predicate AsksFor(step: Step, at: nat) {
    step == SenseArms(at) || step == Finish(Some(at))
  }

  lemma AskedComes(framing: Framing, w: World, step: Step, at: nat)
    requires Kept(framing, w) && Can(w, step) && AsksFor(step, at)
    ensures exists t: nat :: OnItsWay(Next(framing, w, step), t) && t <= at
  {
    hide Streams, OnGrid;
    var n := Next(framing, w, step);
    if step.SenseArms? {
      ArmBeginsCovers(w, at);
      assert OnItsWay(n, at);
    } else {
      var sooner := Sooner(w.pc.txNext, Some(at)).value;
      ArmBeginsCovers(w.(pc := Waiting), sooner);
      assert OnItsWay(n, sooner);
    }
  }

  lemma OnlyPopsTake(framing: Framing, w: World, step: Step, t: nat)
    requires Can(w, step) && !step.Pop? && OnItsWay(w, t)
    ensures OnItsWay(Next(framing, w, step), t)
  {
    if step.Clock? {
      ClockedFrame(framing, w.b, w.pc.now);
    }
    hide Clocked;
  }

  // ----- whole runs -----

  function FreshBridge(): Bridge {
    Bridge([], [], None, None, true, false, None, {}, [], [], 0, [])
  }

  function FreshWorld(): World {
    World(FreshBridge(), Waiting, multiset{}, multiset{}, 0, multiset{}, 0)
  }

  ghost predicate Runs(framing: Framing, worlds: seq<World>, steps: seq<Step>) {
    && |worlds| == |steps| + 1
    && worlds[0] == FreshWorld()
    && forall k :: 0 <= k < |steps| ==> Can(worlds[k], steps[k]) && worlds[k + 1] == Next(framing, worlds[k], steps[k])
  }

  /**
   * Over every interleaving: no accepted byte is lost, reordered or repeated until a switch-off clears the
   * queue; the burst keeps its grid however late a wake; the slot never names an instant the engine does not
   * hold.
   */
  lemma {:induction false} AlwaysKept(framing: Framing, worlds: seq<World>, steps: seq<Step>, k: nat)
    requires Runs(framing, worlds, steps) && k < |worlds|
    ensures Kept(framing, worlds[k])
  {
    if k > 0 {
      AlwaysKept(framing, worlds, steps, k - 1);
      StepKeeps(framing, worlds[k - 1], steps[k - 1]);
    }
  }

  /**
   * No wake is lost to the receiver either, whatever the transmitter and the owner do: once its deadline is asked for,
   * a wake at or before it is on its way until the engine delivers one, and that one's entry is no later.
   */
  lemma {:induction false} DeadlineComes(framing: Framing, worlds: seq<World>, steps: seq<Step>, j: nat, k: nat,
                                         at: nat)
    requires Runs(framing, worlds, steps) && j < k < |worlds| && AsksFor(steps[j], at)
    requires forall i: nat :: j < i < k ==> !steps[i].Pop?
    ensures exists t: nat :: OnItsWay(worlds[k], t) && t <= at
    ensures k < |steps| && steps[k].Pop? && worlds[k].scheduling == multiset{} ==> steps[k].earliest <= at
  {
    hide Next, Kept;
    if k == j + 1 {
      AlwaysKept(framing, worlds, steps, j);
      AskedComes(framing, worlds[j], steps[j], at);
      var t: nat :| OnItsWay(worlds[k], t) && t <= at;
    } else {
      DeadlineComes(framing, worlds, steps, j, k - 1, at);
      var t: nat :| OnItsWay(worlds[k - 1], t) && t <= at;
      OnlyPopsTake(framing, worlds[k - 1], steps[k - 1], t);
      assert OnItsWay(worlds[k], t);
    }
  }

  /** A line gone quiet has driven every accepted byte's frame, whole and in order. */
  lemma QuietHasSentAll(framing: Framing, worlds: seq<World>, steps: seq<Step>, k: nat)
    requires Runs(framing, worlds, steps) && k < |worlds| && IsIdle(worlds[k].b)
    ensures worlds[k].b.driven == Frames(framing, worlds[k].b.accepted)
  {
    AlwaysKept(framing, worlds, steps, k);
    assert worlds[k].b.driven + [] + [] == worlds[k].b.driven;
  }

  /**
   * Over every interleaving: a transmitter with work has a wake coming at or before its next edge, in every
   * world of a run, exactly when no transmit of the run was stray.
   */
  lemma {:induction false} AttendedExactlyWhen(framing: Framing, worlds: seq<World>, steps: seq<Step>, n: nat)
    requires Runs(framing, worlds, steps) && n < |worlds|
    ensures (forall k: nat :: k <= n ==> Attended(worlds[k])) <==>
              (forall k: nat :: k < n ==> !Stray(worlds[k], steps[k]))
  {
    hide Attended, Stray, Kept, Next, Can;
    if n == 0 {
      FreshAttended();
    } else {
      AttendedExactlyWhen(framing, worlds, steps, n - 1);
      AlwaysKept(framing, worlds, steps, n - 1);
      if Attended(worlds[n - 1]) {
        StepAttends(framing, worlds[n - 1], steps[n - 1]);
      }
      if forall k: nat :: k < n ==> !Stray(worlds[k], steps[k]) {
        assert forall k: nat :: k < n - 1 ==> !Stray(worlds[k], steps[k]);
        assert Attended(worlds[n - 1]) && !Stray(worlds[n - 1], steps[n - 1]);
        forall k: nat | k <= n ensures Attended(worlds[k]) {
          assert k == n || k <= n - 1;
        }
      }
      if forall k: nat :: k <= n ==> Attended(worlds[k]) {
        assert Attended(worlds[n]) && Attended(worlds[n - 1]);
        assert forall k: nat :: k <= n - 1 ==> Attended(worlds[k]);
        forall k: nat | k < n ensures !Stray(worlds[k], steps[k]) {
          assert k == n - 1 || k < n - 1;
        }
      }
    }
  }

  lemma FreshAttended()
    ensures Attended(FreshWorld())
  {
  }

  /** An owner that switches the output off only with no transmit admitted and still to queue. */
  ghost predicate Careful(worlds: seq<World>, steps: seq<Step>) {
    forall k :: 0 <= k < |steps| < |worlds| && steps[k] == Swap(false) ==> worlds[k].admitted == multiset{}
  }

  lemma {:induction false} NoneAdmittedWhileOff(framing: Framing, worlds: seq<World>, steps: seq<Step>, k: nat)
    requires Runs(framing, worlds, steps) && Careful(worlds, steps) && k < |worlds|
    ensures !worlds[k].b.enabled ==> worlds[k].admitted == multiset{}
  {
    if k > 0 {
      NoneAdmittedWhileOff(framing, worlds, steps, k - 1);
      OffAdmitsNone(framing, worlds[k - 1], steps[k - 1]);
    }
  }

  lemma OffAdmitsNone(framing: Framing, w: World, step: Step)
    requires Can(w, step) && (w.b.enabled || w.admitted == multiset{}) &&
             (step == Swap(false) ==> w.admitted == multiset{})
    ensures var n := Next(framing, w, step); n.b.enabled || n.admitted == multiset{}
  {
    if step.Clock? {
      ClockedFrame(framing, w.b, w.pc.now);
    }
    hide Clocked;
  }

  /** Such an owner never starves its transmitter, whatever else interleaves. */
  lemma CarefulOwner(framing: Framing, worlds: seq<World>, steps: seq<Step>, n: nat)
    requires Runs(framing, worlds, steps) && Careful(worlds, steps) && n < |worlds|
    ensures forall k: nat :: k <= n ==> Attended(worlds[k])
  {
    forall k: nat | k < n ensures !Stray(worlds[k], steps[k]) {
      NoneAdmittedWhileOff(framing, worlds, steps, k);
      assert Can(worlds[k], steps[k]);
    }
    AttendedExactlyWhen(framing, worlds, steps, n);
  }

  /**
   * On a punctual engine, one that delivers each entry at its own deadline, with no stray transmit before it a
   * wake whose schedules have all landed never comes past the next bit's edge: no bit is driven late.
   */
  lemma NeverPastTheEdge(framing: Framing, worlds: seq<World>, steps: seq<Step>, k: nat)
    requires Runs(framing, worlds, steps) && k < |steps| && steps[k].Pop? && steps[k].popNow == steps[k].earliest
    requires forall j: nat :: j < k ==> !Stray(worlds[j], steps[j])
    requires worlds[k].scheduling == multiset{} && worlds[k].clears == 0
    requires worlds[k].b.enabled && worlds[k].b.nextEdgeNs.Some?
    ensures steps[k].popNow <= worlds[k].b.nextEdgeNs.value
  {
    AttendedExactlyWhen(framing, worlds, steps, k);
    var w := worlds[k];
    assert Attended(w) && Can(w, steps[k]);
    var t: nat :| OnItsWay(w, t) && t <= w.b.nextEdgeNs.value;
    assert t in w.b.wheel;
  }

  // ----- the sections run back to back are the bridge's own calls -----

  /** An arm whose schedule lands at once. */
  ghost function ArmLands(framing: Framing, w: World, at: nat): World {
    var begun := ArmBegins(w, at);
    if begun == w then w else Next(framing, begun, ScheduleLands(at))
  }

  lemma ArmLandsArmed(framing: Framing, w: World, at: nat)
    ensures ArmLands(framing, w, at) == w.(b := Armed(w.b, at))
  {
    if w.b.armedNs != Some(at) {
      assert ArmBegins(w, at).b != w.b;
      assert w.scheduling + multiset{at} - multiset{at} == w.scheduling;
    }
  }

  /** A service's steps up to the transmitter's. */
  ghost function SendSteps(framing: Framing, w: World): (sent: World)
    requires w.pc.Popped?
    ensures sent.pc.Sent?
  {
    var looked := Next(framing, Next(framing, w, Free), Look);
    if looked.pc.Looked? then Next(framing, looked, Clock) else looked
  }

  lemma SendStepsServe(framing: Framing, w: World)
    requires w.pc.Popped?
    ensures var served := TxServiced(framing, Delivered(w.b, w.pc.now), w.pc.now);
            SendSteps(framing, w) == w.(b := served, pc := Sent(NextEdge(served)))
  {
    hide Clocked;
    ClockedFrame(framing, Delivered(w.b, w.pc.now), w.pc.now);
  }

  /** A service's steps, its schedule landing at once. */
  ghost function ServiceSteps(framing: Framing, w: World, rx: Option<nat>): World
    requires w.pc.Popped?
  {
    var sent := SendSteps(framing, w);
    var at := Sooner(sent.pc.txNext, rx);
    var done := Next(framing, sent, Finish(rx));
    if at.Some? && done != sent.(pc := Waiting) then Next(framing, done, ScheduleLands(at.value)) else done
  }

  lemma SectionsAreService(framing: Framing, w: World, rx: Option<nat>)
    requires w.pc.Popped?
    ensures ServiceSteps(framing, w, rx) == w.(b := Serviced(framing, w.b, w.pc.now, rx), pc := Waiting)
  {
    hide TxServiced, Delivered, ArmBegins, Armed, SendSteps, NextEdge;
    SendStepsServe(framing, w);
    var sent := SendSteps(framing, w).(pc := Waiting);
    var at := Sooner(SendSteps(framing, w).pc.txNext, rx);
    if at.Some? {
      ArmLandsArmed(framing, sent, at.value);
    }
  }

  /** A transmit's steps, its schedule landing at once. */
  ghost function TransmitSteps(framing: Framing, w: World, bytes: seq<Byte>, clock: nat): World
    requires Admits(w.b)
  {
    var queued := Next(framing, Next(framing, Next(framing, w, Ask(bytes)), Admit(bytes)), Enqueue(bytes));
    if NeedsKick(w.b, bytes) then ArmLands(framing, queued.(kicks := queued.kicks - 1), clock) else queued
  }

  lemma SectionsAreTransmit(framing: Framing, w: World, bytes: seq<Byte>, clock: nat)
    requires Admits(w.b)
    ensures TransmitSteps(framing, w, bytes, clock) == w.(b := Transmitted(w.b, bytes, clock))
  {
    hide Armed, ArmLands, Enqueued;
    assert w.asked + multiset{bytes} - multiset{bytes} == w.asked;
    assert w.admitted + multiset{bytes} - multiset{bytes} == w.admitted;
    ArmLandsArmed(framing, w.(b := Enqueued(w.b, bytes)), clock);
  }

  lemma SectionsAreSwitch(framing: Framing, w: World, on: bool)
    requires w.b.enabled != on
    ensures var swapped := Next(framing, w, Swap(on));
            Next(framing, if on then swapped else Next(framing, swapped, Clear), Park) == w.(b := Switched(w.b, on))
  {
  }
}
