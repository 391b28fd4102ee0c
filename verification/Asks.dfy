/**
 * What members ask of an assembly, and what they get: from the asking itself to the handler's call, over any run.
 */
module Asks {
  import opened Options
  import opened Words
  import opened Wakes

  // ----- one-shots -----

  lemma {:induction false} AskAllTakes(s: State, clock: nat, body: seq<Asked>, t: nat, m: nat)
    requires Asked(m, At(t)) in body
    ensures (t, m) in AskAll(s, clock, body).oneshots
  {
    var last := |body| - 1;
    if body[last] != Asked(m, At(t)) {
      assert body == body[..last] + [body[last]];
      AskAllTakes(s, clock, body[..last], t, m);
    }
  }

  lemma {:induction false} DeliveredTakes(s: State, calls: seq<Call>, clock: nat, bodies: seq<seq<Asked>>, k: nat,
                                          t: nat, m: nat)
    requires k < |calls| && k < |bodies| && Asked(m, At(t)) in bodies[k]
    ensures (t, m) in Delivered(s, calls, clock, bodies).oneshots
  {
    var last := |calls| - 1;
    var before := Delivered(s, calls[..last], clock, bodies);
    var called := before.(calls := before.calls + [calls[last]]);
    if k == last {
      AskAllTakes(called, clock, bodies[last], t, m);
    } else {
      DeliveredTakes(s, calls[..last], clock, bodies, k, t, m);
      AskAllKeepsOneshot(called, clock, if last < |bodies| then bodies[last] else [], (t, m));
    }
  }

  /** The calls a step makes: a dispatch's, and no other step's. */
  ghost function Made(states: seq<State>, j: nat): seq<Call>
    requires j + 1 < |states|
  {
    if states[j].calls <= states[j + 1].calls then states[j + 1].calls[|states[j].calls|..] else []
  }

  /** In step `j` some member's code asks for this: from outside, or a handler the step calls. */
  ghost predicate AsksIn(states: seq<State>, steps: seq<Step>, j: nat, asked: Asked)
    requires |states| == |steps| + 1 && j < |steps|
  {
    match steps[j]
    case Asks(_, a) => a == asked
    case Fires(_, _, bodies) => exists k :: 0 <= k < |bodies| && k < |Made(states, j)| && asked in bodies[k]
    case Drops => false
  }

  lemma MadeBy(states: seq<State>, steps: seq<Step>, j: nat)
    requires Runs(states, steps) && j < |steps| && steps[j].Fires?
    ensures var t := states[j].(wheel := states[j].wheel - {Least(states[j].wheel)});
            && states[j].calls <= states[j + 1].calls
            && Made(states, j) == DueCalls(t.handlers, DueMembers(t, steps[j].now), steps[j].now, |t.handlers|)
  {
    var t := states[j].(wheel := states[j].wheel - {Least(states[j].wheel)});
    var now := steps[j].now;
    DeliveredCalls(Drained(t, now), DueCalls(t.handlers, DueMembers(t, now), now, |t.handlers|), steps[j].wakeClock,
                   steps[j].bodies);
  }

  /** A one-shot asked for is kept as asked, whoever's code asks. */
  lemma AskedIsKept(states: seq<State>, steps: seq<Step>, j: nat, t: nat, m: nat)
    requires Runs(states, steps) && j < |steps| && AsksIn(states, steps, j, Asked(m, At(t)))
    ensures (t, m) in states[j + 1].oneshots
  {
    match steps[j]
    case Asks(_, _) =>
    case Fires(now, clock, bodies) =>
      var s := states[j].(wheel := states[j].wheel - {Least(states[j].wheel)});
      var k :| 0 <= k < |bodies| && k < |Made(states, j)| && Asked(m, At(t)) in bodies[k];
      MadeBy(states, steps, j);
      hide DueCalls, Delivered, Drained, DueMembers;
      DeliveredTakes(Drained(s, now), Made(states, j), clock, bodies, k, t, m);
    case Drops =>
  }

  /**
   * A one-shot, from the asking: the first dispatch at or after the instant asked for calls the asking member's
   * handler, and on a punctual engine the dispatch is at the instant itself.
   */
  lemma AskedAtIsCalled(states: seq<State>, steps: seq<Step>, t: nat, m: nat, j: nat, k: nat)
    requires Runs(states, steps) && j < k < |steps| && AsksIn(states, steps, j, Asked(m, At(t)))
    requires forall i :: j < i < k ==> !steps[i].Drops? && (steps[i].Fires? ==> steps[i].now < t)
    requires steps[k].Fires? && steps[k].now >= t && m < |states[k].handlers| && states[k].handlers[m].Some?
    ensures Call(m, states[k].handlers[m].value, steps[k].now) in Made(states, k)
    ensures Armed(states[0]) && Punctual(states[k], steps[k]) ==> steps[k].now == t
  {
    hide Next, Dispatched, IsDue, DueMembers;
    AskedIsKept(states, steps, j, t, m);
    OneshotHanded(states, steps, t, m, j + 1, k);
    MadeBy(states, steps, k);
    if Armed(states[0]) && Punctual(states[k], steps[k]) {
      OneshotWaits(states, steps, (t, m), j + 1, k);
      AlwaysArmed(states, steps, k);
    }
  }

  // ----- handlers -----

  /** Nobody gives member `m` another handler in step `i`. */
  ghost predicate KeepsHandler(step: Step, m: nat) {
    match step
    case Asks(_, a) => a.member != m || !a.request.OnWake?
    case Fires(_, _, bodies) =>
      forall k, a :: 0 <= k < |bodies| && a in bodies[k] ==> a.member != m || !a.request.OnWake?
    case Drops => false
  }

  lemma {:induction false} AskAllHandler(s: State, clock: nat, body: seq<Asked>, m: nat)
    requires forall a :: a in body ==> a.member != m || !a.request.OnWake?
    ensures var t := AskAll(s, clock, body);
            |t.handlers| == |s.handlers| && (m < |s.handlers| ==> t.handlers[m] == s.handlers[m])
  {
    if |body| > 0 {
      AskAllHandler(s, clock, body[..|body| - 1], m);
    }
  }

  lemma {:induction false} DeliveredHandler(s: State, calls: seq<Call>, clock: nat, bodies: seq<seq<Asked>>, m: nat)
    requires forall k, a :: 0 <= k < |bodies| && a in bodies[k] ==> a.member != m || !a.request.OnWake?
    ensures var t := Delivered(s, calls, clock, bodies);
            |t.handlers| == |s.handlers| && (m < |s.handlers| ==> t.handlers[m] == s.handlers[m])
  {
    if |calls| > 0 {
      var last := |calls| - 1;
      DeliveredHandler(s, calls[..last], clock, bodies, m);
      var before := Delivered(s, calls[..last], clock, bodies);
      AskAllHandler(before.(calls := before.calls + [calls[last]]), clock, if last < |bodies| then bodies[last] else [],
                    m);
    }
  }

  lemma StepHandler(s: State, step: Step, m: nat)
    requires WellFormed(s) && Can(s, step) && KeepsHandler(step, m)
    ensures var t := Next(s, step);
            |t.handlers| == |s.handlers| && (m < |s.handlers| ==> t.handlers[m] == s.handlers[m])
  {
    match step {
      case Asks(_, _) =>
      case Fires(now, clock, bodies) =>
        var t := s.(wheel := s.wheel - {Least(s.wheel)});
        DeliveredHandler(Drained(t, now), DueCalls(t.handlers, DueMembers(t, now), now, |t.handlers|), clock, bodies,
                         m);
      case Drops =>
    }
  }

  /** The handler a member has is the last one its code gave, until the assembly goes. */
  lemma {:induction false} HandlerIsLast(states: seq<State>, steps: seq<Step>, m: nat, h: Handler, j: nat, k: nat)
    requires Runs(states, steps) && j < k < |states| && m < |states[j].handlers|
    requires steps[j].Asks? && steps[j].asked == Asked(m, OnWake(h))
    requires forall i :: j < i < k ==> KeepsHandler(steps[i], m)
    ensures m < |states[k].handlers| && states[k].handlers[m] == Some(h)
    decreases k
  {
    hide Dispatched, KeepsHandler;
    if k > j + 1 {
      HandlerIsLast(states, steps, m, h, j, k - 1);
      StepHandler(states[k - 1], steps[k - 1], m);
    }
  }

  /** The two together: the handler a member gave is what its one-shot is handed to. */
  lemma AskedAtCallsTheHandler(states: seq<State>, steps: seq<Step>, t: nat, m: nat, h: Handler, g: nat, j: nat, k: nat)
    requires Runs(states, steps) && g < k && j < k < |steps| && m < |states[g].handlers|
    requires steps[g].Asks? && steps[g].asked == Asked(m, OnWake(h)) && AsksIn(states, steps, j, Asked(m, At(t)))
    requires forall i :: g < i < k ==> KeepsHandler(steps[i], m)
    requires forall i :: j < i < k ==> !steps[i].Drops? && (steps[i].Fires? ==> steps[i].now < t)
    requires steps[k].Fires? && steps[k].now >= t
    ensures Call(m, h, steps[k].now) in Made(states, k)
    ensures Armed(states[0]) && Punctual(states[k], steps[k]) ==> steps[k].now == t
  {
    hide KeepsHandler, Runs, AsksIn, Armed, Made, Punctual;
    RunsLengths(states, steps);
    HandlerIsLast(states, steps, m, h, g, k);
    AskedAtIsCalled(states, steps, t, m, j, k);
  }

  lemma RunsLengths(states: seq<State>, steps: seq<Step>)
    requires Runs(states, steps)
    ensures |states| == |steps| + 1
  {
  }

  // ----- periods -----

  /** No step up to `k` is late, lets the clock saturate, or ends the assembly. */
  ghost predicate Steady(states: seq<State>, steps: seq<Step>, j: nat, k: nat, periodNs: nat)
    requires |states| == |steps| + 1 && k <= |steps|
  {
    forall i: nat :: j < i < k ==>
      !steps[i].Drops? && Punctual(states[i], steps[i]) && (steps[i].Fires? ==> steps[i].now + periodNs < U64_MAX)
  }

  /**
   * The period at place `i` has been handed exactly its first |fires| instants since `clock`, each in the step that
   * `fires` names, and waits for the next.
   */
  ghost predicate OnBeat(states: seq<State>, steps: seq<Step>, j: nat, k: nat, i: nat, clock: nat, m: nat,
                         periodNs: nat, fires: seq<nat>)
    requires |states| == |steps| + 1 && k < |states|
  {
    && i < |states[k].periods|
    && states[k].periods[i] == Period(m, clock + (|fires| + 1) * periodNs, periodNs)
    && forall q :: 0 <= q < |fires| ==> OnTheBeat(states, steps, j, k, fires[q], m, clock + (q + 1) * periodNs)
  }

  /** Step `f` is a dispatch at `at` for member `m`. */
  ghost predicate OnTheBeat(states: seq<State>, steps: seq<Step>, j: nat, k: nat, f: nat, m: nat, at: nat)
    requires |states| == |steps| + 1 && k < |states|
  {
    j < f < k && steps[f].Fires? && steps[f].now == at && WellFormed(states[f]) && IsDue(states[f], at, m)
  }

  lemma AskedEvery(states: seq<State>, steps: seq<Step>, j: nat, m: nat, periodNs: nat)
    requires Runs(states, steps) && j < |steps| && periodNs > 0
    requires steps[j].Asks? && steps[j].asked == Asked(m, Every(periodNs)) && steps[j].clock + periodNs < U64_MAX
    ensures OnBeat(states, steps, j, j + 1, |states[j].periods|, steps[j].clock, m, periodNs, [])
  {
  }

  lemma AskStep(s: State, clock: nat, asked: Asked, i: nat)
    requires i < |s.periods|
    ensures i < |Ask(s, clock, asked).periods| && Ask(s, clock, asked).periods[i] == s.periods[i]
  {
  }

  lemma FireStep(s: State, step: Step, i: nat)
    requires WellFormed(s) && Can(s, step) && step.Fires? && i < |s.periods|
    ensures i < |Next(s, step).periods| && Next(s, step).periods[i] == Advanced(s.periods[i], step.now)
  {
    var t := s.(wheel := s.wheel - {Least(s.wheel)});
    var d := Drained(t, step.now);
    var calls := DueCalls(t.handlers, DueMembers(t, step.now), step.now, |t.handlers|);
    hide DueCalls, DueMembers, Delivered, Rearmed;
    DeliveredKeepsPeriods(d, calls, step.wakeClock, step.bodies);
    assert Next(s, step).periods[..|d.periods|][i] == d.periods[i];
  }

  lemma BeatKept(states: seq<State>, steps: seq<Step>, j: nat, k: nat, i: nat, clock: nat, m: nat, periodNs: nat,
                 fires: seq<nat>)
    requires |states| == |steps| + 1 && k < |steps| && OnBeat(states, steps, j, k, i, clock, m, periodNs, fires)
    requires i < |states[k + 1].periods| && states[k + 1].periods[i] == states[k].periods[i]
    ensures OnBeat(states, steps, j, k + 1, i, clock, m, periodNs, fires)
  {
    forall q | 0 <= q < |fires| ensures OnTheBeat(states, steps, j, k + 1, fires[q], m, clock + (q + 1) * periodNs) {
      assert OnTheBeat(states, steps, j, k, fires[q], m, clock + (q + 1) * periodNs);
    }
    hide OnTheBeat;
  }

  lemma BeatMore(states: seq<State>, steps: seq<Step>, j: nat, k: nat, i: nat, clock: nat, m: nat, periodNs: nat,
                 fires: seq<nat>)
    requires |states| == |steps| + 1 && j < k < |steps| && OnBeat(states, steps, j, k, i, clock, m, periodNs, fires)
    requires WellFormed(states[k]) && steps[k].Fires? && steps[k].now == states[k].periods[i].nextNs
    requires steps[k].now + periodNs < U64_MAX && periodNs > 0
    requires i < |states[k + 1].periods| && states[k + 1].periods[i] == Advanced(states[k].periods[i], steps[k].now)
    ensures OnBeat(states, steps, j, k + 1, i, clock, m, periodNs, fires + [k])
  {
    var more := fires + [k];
    var now := steps[k].now;
    assert states[k].periods[i] in states[k].periods;
    assert (|more| + 1) * periodNs == (|fires| + 1) * periodNs + periodNs;
    assert OnTheBeat(states, steps, j, k + 1, k, m, now);
    forall q | 0 <= q < |more| ensures OnTheBeat(states, steps, j, k + 1, more[q], m, clock + (q + 1) * periodNs) {
      if q < |fires| {
        assert OnTheBeat(states, steps, j, k, fires[q], m, clock + (q + 1) * periodNs);
      }
    }
    hide OnTheBeat;
  }

  /** From the asking on, on a punctual engine, a period keeps its beat. */
  lemma {:induction false} EveryOnBeat(states: seq<State>, steps: seq<Step>, j: nat, k: nat, m: nat, periodNs: nat)
    returns (fires: seq<nat>)
    requires Runs(states, steps) && Armed(states[0]) && j < k < |states| && periodNs > 0
    requires steps[j].Asks? && steps[j].asked == Asked(m, Every(periodNs)) && steps[j].clock + periodNs < U64_MAX
    requires Steady(states, steps, j, k, periodNs)
    ensures OnBeat(states, steps, j, k, |states[j].periods|, steps[j].clock, m, periodNs, fires)
    decreases k
  {
    hide Next, OnTheBeat, Dispatched, Ask;
    var (i, clock) := (|states[j].periods|, steps[j].clock);
    if k == j + 1 {
      AskedEvery(states, steps, j, m, periodNs);
      fires := [];
    } else {
      fires := EveryOnBeat(states, steps, j, k - 1, m, periodNs);
      AlwaysArmed(states, steps, k - 1);
      var (s, step) := (states[k - 1], steps[k - 1]);
      if step.Asks? {
        AskStep(s, step.clock, step.asked, i);
        AskNext(s, step);
        BeatKept(states, steps, j, k - 1, i, clock, m, periodNs, fires);
      } else {
        FireStep(s, step, i);
        assert s.periods[i] in s.periods && s.periods[i].nextNs in s.wheel;
        if s.periods[i].nextNs == step.now {
          BeatMore(states, steps, j, k - 1, i, clock, m, periodNs, fires);
          fires := fires + [k - 1];
        } else {
          BeatKept(states, steps, j, k - 1, i, clock, m, periodNs, fires);
        }
      }
    }
  }

  lemma AskNext(s: State, step: Step)
    requires WellFormed(s) && step.Asks?
    ensures Next(s, step) == Ask(s, step.clock, step.asked)
  {
  }

  /** After a dispatch the next instant of a period is ahead of it. */
  lemma NextAhead(states: seq<State>, steps: seq<Step>, j: nat, k: nat, m: nat, periodNs: nat)
    requires Runs(states, steps) && Armed(states[0]) && j < k < |steps| && periodNs > 0
    requires steps[j].Asks? && steps[j].asked == Asked(m, Every(periodNs)) && steps[j].clock + periodNs < U64_MAX
    requires Steady(states, steps, j, k + 1, periodNs) && steps[k].Fires?
    ensures |states[j].periods| < |states[k + 1].periods|
    ensures states[k + 1].periods[|states[j].periods|].nextNs > steps[k].now
  {
    hide Next, Dispatched, Ask, OnTheBeat;
    var fires := EveryOnBeat(states, steps, j, k, m, periodNs);
    FireStep(states[k], steps[k], |states[j].periods|);
  }

  lemma SpansGrow(n: nat, q: nat, p: nat)
    requires n <= q
    ensures n * p <= q * p
  {
  }

  lemma MoreSpans(n: nat, q: nat, p: nat)
    requires (n + 1) * p > q * p
    ensures n >= q
  {
    if n + 1 <= q {
      SpansGrow(n + 1, q, p);
    }
  }

  lemma BeatCalls(states: seq<State>, steps: seq<Step>, j: nat, k: nat, f: nat, m: nat, at: nat)
    requires Runs(states, steps) && k < |states| && OnTheBeat(states, steps, j, k, f, m, at)
    ensures m < |states[f].handlers| && states[f].handlers[m].Some? ==>
              Call(m, states[f].handlers[m].value, at) in Made(states, f)
  {
    var t := states[f].(wheel := states[f].wheel - {Least(states[f].wheel)});
    MadeBy(states, steps, f);
    DueMembersAre(t, at, m);
    assert IsDue(t, at, m) by { assert IsDue(states[f], at, m); }
    DueCallsExactly(t.handlers, DueMembers(t, at), at, |t.handlers|);
  }

  /**
   * A period, from the asking: on a punctual engine, by the first dispatch at or after the q-th instant of it, that
   * instant itself has had a dispatch, and it calls the asking member's handler.
   */
  lemma AskedEveryIsCalled(states: seq<State>, steps: seq<Step>, j: nat, k: nat, m: nat, periodNs: nat, q: nat)
    returns (f: nat)
    requires Runs(states, steps) && Armed(states[0]) && j < k < |steps| && periodNs > 0 && q > 0
    requires steps[j].Asks? && steps[j].asked == Asked(m, Every(periodNs)) && steps[j].clock + periodNs < U64_MAX
    requires Steady(states, steps, j, k + 1, periodNs)
    requires steps[k].Fires? && steps[k].now >= steps[j].clock + q * periodNs
    ensures j < f <= k && steps[f].Fires? && steps[f].now == steps[j].clock + q * periodNs
    ensures m < |states[f].handlers| && states[f].handlers[m].Some? ==>
              Call(m, states[f].handlers[m].value, steps[f].now) in Made(states, f)
  {
    hide Next, Dispatched, Ask, OnTheBeat, IsDue, Made, Armed, Steady;
    RunsLengths(states, steps);
    var fires := EveryOnBeat(states, steps, j, k + 1, m, periodNs);
    NextAhead(states, steps, j, k, m, periodNs);
    MoreSpans(|fires|, q, periodNs);
    f := fires[q - 1];
    IsOnBeat(states, steps, j, k + 1, f, m, steps[j].clock + q * periodNs);
    BeatCalls(states, steps, j, k + 1, f, m, steps[j].clock + q * periodNs);
  }

  lemma IsOnBeat(states: seq<State>, steps: seq<Step>, j: nat, k: nat, f: nat, m: nat, at: nat)
    requires |states| == |steps| + 1 && k < |states| && OnTheBeat(states, steps, j, k, f, m, at)
    ensures j < f < k && steps[f].Fires? && steps[f].now == at
  {
  }

  // ----- the drop -----

  /** Once the assembly is dropped nothing it held is left, and no step of any run after it calls anyone again. */
  lemma {:induction false} DroppedIsSilent(states: seq<State>, steps: seq<Step>, j: nat, k: nat)
    requires Runs(states, steps) && j < k <= |steps| && steps[j].Drops?
    ensures states[j + 1].oneshots == {} && states[j + 1].periods == []
    ensures states[k].handlers == [] && states[k].calls == states[j].calls
  {
    if k > j + 1 {
      DroppedIsSilent(states, steps, j, k - 1);
      NobodyCalled(states[k - 1], steps[k - 1]);
    }
    hide Dispatched, Ask;
  }

  lemma NobodyCalled(s: State, step: Step)
    requires WellFormed(s) && Can(s, step) && s.handlers == []
    ensures Next(s, step).handlers == [] && Next(s, step).calls == s.calls
  {
    hide DueMembers, AdvancedAll, Recorded, Rearmed;
  }
}
