/** What a stray transmit leads to: a transmitter switched back on with bytes to send and no wake ever coming. */
module Starvation {
  import opened Options
  import opened Uart
  import opened Words
  import opened Serial
  import opened SerialRuns

  /** The steps lead from one world to another. */
  ghost predicate Leads(framing: Framing, w: World, steps: seq<Step>, end: World)
    decreases |steps|
  {
    if |steps| == 0 then w == end
    else Can(w, steps[0]) && Leads(framing, Next(framing, w, steps[0]), steps[1..], end)
  }

  /** On, quiet everywhere, and not idle: nothing is coming that would clock the transmitter. */
  ghost predicate Starved(w: World) {
    && w.b.enabled && !IsIdle(w.b) && w.clears == 0 && w.pc.Waiting?
    && w.b.wheel == {} && w.scheduling == multiset{} && w.kicks == 0
  }

  lemma StarvedIsUnattended(framing: Framing, w: World)
    requires Kept(framing, w) && Starved(w)
    ensures !NeverStarved(w)
  {
  }

  /**
   * No transmit gets it going again, nor switching on what is on: only the other direction's wake, or a switch-off,
   * ends it.
   */
  lemma StarvedStays(framing: Framing, w: World, step: Step)
    requires Starved(w) && Can(w, step) && !step.SenseArms? && step != Swap(false)
    ensures Starved(Next(framing, w, step))
  {
  }

  // ----- every stray transmit can end there -----

  /** Off with the queue cleared, and yet with something to send. */
  ghost predicate Stranded(w: World) {
    !w.b.enabled && w.clears == 0 && !IsIdle(w.b)
  }

  lemma {:induction false} LeadsOn(framing: Framing, w: World, steps: seq<Step>, mid: World, more: seq<Step>,
                                   end: World)
    requires Leads(framing, w, steps, mid) && Leads(framing, mid, more, end)
    ensures Leads(framing, w, steps + more, end)
    decreases |steps|
  {
    if |steps| == 0 {
      assert steps + more == more;
    } else {
      assert (steps + more)[1..] == steps[1..] + more;
      LeadsOn(framing, Next(framing, w, steps[0]), steps[1..], mid, more, end);
    }
  }

  lemma LeadsStep(framing: Framing, w: World, steps: seq<Step>, mid: World, step: Step)
    requires Leads(framing, w, steps, mid) && Can(mid, step)
    ensures Leads(framing, w, steps + [step], Next(framing, mid, step))
  {
    assert [step][1..] == [];
    LeadsOn(framing, w, steps, mid, [step], Next(framing, mid, step));
  }

  /** A service already under way comes to its end: it may clock one bit, never the last thing there is to send. */
  lemma ServiceEnds(framing: Framing, w: World) returns (steps: seq<Step>, end: World)
    requires Stranded(w) && w.b.pending != []
    ensures Leads(framing, w, steps, end) && Stranded(end) && end.pc.Waiting?
  {
    steps, end := [], w;
    if end.pc.Popped? {
      LeadsStep(framing, w, steps, end, Free);
      steps, end := steps + [Free], Next(framing, end, Free);
    }
    if end.pc.Freed? {
      LeadsStep(framing, w, steps, end, Look);
      steps, end := steps + [Look], Next(framing, end, Look);
    }
    if end.pc.Looked? {
      ClockedFrame(framing, end.b, end.pc.now);
      LeadsStep(framing, w, steps, end, Clock);
      steps, end := steps + [Clock], Next(framing, end, Clock);
    }
    if end.pc.Sent? {
      LeadsStep(framing, w, steps, end, Finish(None));
      steps, end := steps + [Finish(None)], Next(framing, end, Finish(None));
    }
  }

  /** The earliest instant on the wheel. */
  lemma Earliest(s: set<nat>) returns (least: nat)
    requires s != {}
    ensures least in s && forall m :: m in s ==> least <= m
    decreases |s|
  {
    least :| least in s;
    var rest := s - {least};
    if rest != {} {
      var other := Earliest(rest);
      assert forall m :: m in s ==> m == least || m in rest;
      if other < least {
        least := other;
      }
    } else {
      assert forall m :: m in s ==> m == least || m in rest;
    }
  }

  /** One wake serviced while the output is off: an instant fewer on the wheel, nothing armed, nothing sent. */
  lemma OffService(framing: Framing, w: World, t: nat) returns (steps: seq<Step>, end: World)
    requires Stranded(w) && w.pc.Waiting? && t in w.b.wheel && forall m :: m in w.b.wheel ==> t <= m
    ensures Leads(framing, w, steps, end) && Stranded(end) && end.pc.Waiting?
    ensures end.kicks == w.kicks && end.scheduling == w.scheduling && end.b.wheel == w.b.wheel - {t}
    ensures end.b == Delivered(w.b.(wheel := end.b.wheel), t) && end.asked == w.asked && end.admitted == w.admitted
  {
    var popped := Next(framing, w, Pop(t, t));
    LeadsStep(framing, w, [], w, Pop(t, t));
    var freed := Next(framing, popped, Free);
    LeadsStep(framing, w, [Pop(t, t)], popped, Free);
    var looked := Next(framing, freed, Look);
    LeadsStep(framing, w, [Pop(t, t)] + [Free], freed, Look);
    end := Next(framing, looked, Finish(None));
    LeadsStep(framing, w, [Pop(t, t)] + [Free] + [Look], looked, Finish(None));
    steps := [Pop(t, t)] + [Free] + [Look] + [Finish(None)];
  }

  /** Everything on its way is delivered to a line that is off, and comes to nothing. */
  lemma {:induction false} WakesRunOut(framing: Framing, w: World) returns (steps: seq<Step>, end: World)
    requires Stranded(w) && w.pc.Waiting?
    ensures Leads(framing, w, steps, end) && Stranded(end) && end.pc.Waiting?
    ensures end.b.wheel == {} && end.scheduling == multiset{} && end.kicks == 0
    decreases w.kicks, |w.scheduling|, |w.b.wheel|
  {
    if w.kicks > 0 {
      var mid := Next(framing, w, KickArms(0));
      LeadsStep(framing, w, [], w, KickArms(0));
      steps, end := WakesRunOut(framing, mid);
      LeadsOn(framing, w, [] + [KickArms(0)], mid, steps, end);
      steps := [] + [KickArms(0)] + steps;
    } else if w.scheduling != multiset{} {
      var at :| at in w.scheduling;
      var mid := Next(framing, w, ScheduleLands(at));
      LeadsStep(framing, w, [], w, ScheduleLands(at));
      steps, end := WakesRunOut(framing, mid);
      LeadsOn(framing, w, [] + [ScheduleLands(at)], mid, steps, end);
      steps := [] + [ScheduleLands(at)] + steps;
    } else if w.b.wheel != {} {
      var t := Earliest(w.b.wheel);
      var first, mid := OffService(framing, w, t);
      steps, end := WakesRunOut(framing, mid);
      LeadsOn(framing, w, first, mid, steps, end);
      steps := first + steps;
    } else {
      steps, end := [], w;
    }
  }

  /**
   * From any world, a stray transmit can be followed by steps that end starved: the owner switches back on too late.
   */
  lemma StrayStarves(framing: Framing, w: World, step: Step) returns (steps: seq<Step>, end: World)
    requires OffIsEmpty(w) && Can(w, step) && Stray(w, step)
    ensures Leads(framing, w, steps, end) && Starved(end)
  {
    var stranded := Next(framing, w, step);
    assert stranded.b.pending != [] && Stranded(stranded);
    LeadsStep(framing, w, [], w, step);
    var first, waiting := ServiceEnds(framing, stranded);
    LeadsOn(framing, w, [] + [step], stranded, first, waiting);
    var rest, out := WakesRunOut(framing, waiting);
    LeadsOn(framing, w, [] + [step] + first, waiting, rest, out);
    steps, end := [] + [step] + first + rest + [Swap(true)], Next(framing, out, Swap(true));
    LeadsStep(framing, w, [] + [step] + first + rest, out, Swap(true));
  }

  // ----- one run, from a new bridge -----

  /** The world once a transmit admitted before a switch-off has queued after the clear, and its kick has armed. */
  function Queued(first: seq<Byte>): World {
    var b := FreshBridge();
    World(b.(enabled := false, pending := first, accepted := first, wheel := {0}, armedNs := Some(0)),
          Waiting, multiset{}, multiset{}, 0, multiset{}, 0)
  }

  /** The output off and the queue cleared, the transmit admitted before it yet to take the lock. */
  function Late(first: seq<Byte>): World {
    World(FreshBridge().(enabled := false), Waiting, multiset{}, multiset{first}, 0, multiset{}, 0)
  }

  lemma AdmittedLate(framing: Framing, first: seq<Byte>)
    ensures Leads(framing, FreshWorld(), [] + [Ask(first)] + [Admit(first)] + [Swap(false)] + [Clear], Late(first))
  {
    var w0 := FreshWorld();
    var asked := w0.(asked := multiset{first});
    LeadsStep(framing, w0, [], w0, Ask(first));
    var admitted := w0.(admitted := multiset{first});
    assert Next(framing, asked, Admit(first)) == admitted;
    LeadsStep(framing, w0, [] + [Ask(first)], asked, Admit(first));
    var off := admitted.(b := Flagged(admitted.b, false), clears := 1);
    LeadsStep(framing, w0, [] + [Ask(first)] + [Admit(first)], admitted, Swap(false));
    LeadsStep(framing, w0, [] + [Ask(first)] + [Admit(first)] + [Swap(false)], off, Clear);
  }

  lemma QueuedLate(framing: Framing, first: seq<Byte>)
    requires 0 < |first| <= TX_QUEUE_MAX
    ensures Leads(framing, Late(first), [] + [Enqueue(first)] + [KickArms(0)] + [ScheduleLands(0)], Queued(first))
  {
    var late := Late(first);
    var kicking := Queued(first).(b := Queued(first).b.(wheel := {}, armedNs := None), kicks := 1);
    var arming := Queued(first).(b := Queued(first).b.(wheel := {}), scheduling := multiset{0});
    LateQueues(framing, first);
    assert Next(framing, kicking, KickArms(0)) == arming;
    assert {} + {0} == {0} && multiset{0} - multiset{0} == multiset{};
    assert Next(framing, arming, ScheduleLands(0)) == Queued(first);
    assert Leads(framing, late, [], late);
    hide Leads, Enqueued, ArmBegins, Frame, Frames, Parked, Clocked;
    LeadsStep(framing, late, [], late, Enqueue(first));
    LeadsStep(framing, late, [] + [Enqueue(first)], kicking, KickArms(0));
    LeadsStep(framing, late, [] + [Enqueue(first)] + [KickArms(0)], arming, ScheduleLands(0));
  }

  lemma LateQueues(framing: Framing, first: seq<Byte>)
    requires 0 < |first| <= TX_QUEUE_MAX
    ensures Can(Late(first), Enqueue(first))
    ensures Next(framing, Late(first), Enqueue(first)) ==
            Queued(first).(b := Queued(first).b.(wheel := {}, armedNs := None), kicks := 1)
  {
    RoomIsTaken(Late(first).b, first);
    assert [] + first == first;
    assert multiset{first} - multiset{first} == multiset{};
  }

  lemma LateTransmit(framing: Framing, first: seq<Byte>) returns (steps: seq<Step>)
    requires 0 < |first| <= TX_QUEUE_MAX
    ensures Leads(framing, FreshWorld(), steps, Queued(first))
  {
    hide *;
    AdmittedLate(framing, first);
    QueuedLate(framing, first);
    var early, late := [] + [Ask(first)] + [Admit(first)] + [Swap(false)] + [Clear],
                       [] + [Enqueue(first)] + [KickArms(0)] + [ScheduleLands(0)];
    LeadsOn(framing, FreshWorld(), early, Late(first), late, Queued(first));
    steps := early + late;
  }

  /**
   * The failing run: bytes queued after the clear, their one wake spent while the output is off, the output
   * switched back on, and more bytes accepted by a line that takes itself to be busy.
   */
  lemma StarvedRun(framing: Framing, first: seq<Byte>, second: seq<Byte>) returns (steps: seq<Step>, end: World)
    requires 0 < |first| && |first| + |second| <= TX_QUEUE_MAX
    ensures Leads(framing, FreshWorld(), steps, end)
    ensures Starved(end) && end.b.pending == first + second && end.b.armedNs == None
  {
    steps := LateTransmit(framing, first);
    var queued := Queued(first);
    var more, mid := OffService(framing, queued, 0);
    LeadsOn(framing, FreshWorld(), steps, queued, more, mid);
    steps := steps + more;
    var on := Next(framing, mid, Swap(true));
    LeadsStep(framing, FreshWorld(), steps, mid, Swap(true));
    var asked := Next(framing, on, Ask(second));
    LeadsStep(framing, FreshWorld(), steps + [Swap(true)], on, Ask(second));
    var admitted := Next(framing, asked, Admit(second));
    LeadsStep(framing, FreshWorld(), steps + [Swap(true)] + [Ask(second)], asked, Admit(second));
    end := Next(framing, admitted, Enqueue(second));
    LeadsStep(framing, FreshWorld(), steps + [Swap(true)] + [Ask(second)] + [Admit(second)], admitted, Enqueue(second));
    steps := steps + [Swap(true)] + [Ask(second)] + [Admit(second)] + [Enqueue(second)];
    assert second[..|second|] == second;
  }
}
